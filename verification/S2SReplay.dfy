/** libs/shared/s2s_auth.py: the pruned nonce table and the accept/reject skeleton of
    SharedSecretS2SAuth.verify_request, for every run with a clock that does not go back. */
module S2SReplay {
  import opened Wrappers
  import opened Text

  /** The cache key of a service and a nonce. */
  function NonceKey(service: string, nonce: string): string {
    service + ":" + nonce
  }

  type Seen = map<string, real>

  /** _drop_expired_nonces. */
  function Pruned(seen: Seen, now: real, window: int): Seen {
    map k | k in seen && now - seen[k] <= window as real :: seen[k]
  }

  predicate Remembers(seen: Seen, key: string, now: real, window: int) {
    key in Pruned(seen, now, window)
  }

  /** remember: prune, then store unless the key is still there. */
  function Remembered(seen: Seen, key: string, timestamp: real, now: real, window: int): Seen {
    var kept := Pruned(seen, now, window);
    if key in kept then kept else kept[key := timestamp]
  }

  datatype AuthError = MethodUnsupported | FieldMissing | OutsideWindow | BadSignature | NonceUsed

  class InMemoryS2SReplayCache {
    var seen: Seen

    constructor ()
      ensures seen == map[]
    {
      seen := map[];
    }

    method DropExpiredNonces(now: real, window: int)
      modifies this
      ensures seen == Pruned(old(seen), now, window)
    {
      var expired := set k | k in seen && now - seen[k] > window as real;
      while expired != {}
        invariant expired <= seen.Keys
        invariant forall k :: k in seen ==> k in old(seen) && seen[k] == old(seen)[k]
        invariant forall k :: k in old(seen) && now - old(seen)[k] <= window as real ==> k in seen
        invariant forall k :: k in seen ==> (k in expired <==> now - seen[k] > window as real)
        decreases expired
      {
        var k :| k in expired;
        expired := expired - {k};
        seen := seen - {k};
      }
    }

    method Remember(service: string, nonce: string, timestamp: real, now: real, window: int)
      returns (r: Result<(), AuthError>)
      modifies this
      ensures r == if Remembers(old(seen), NonceKey(service, nonce), now, window) then Err(NonceUsed) else Ok(())
      ensures seen == Remembered(old(seen), NonceKey(service, nonce), timestamp, now, window)
    {
      DropExpiredNonces(now, window);
      var key := service + ":" + nonce;
      if key in seen {
        return Err(NonceUsed);
      }
      seen := seen[key := timestamp];
      return Ok(());
    }
  }

  // ---- verify_request -----------------------------------------------------

  /** The request's own fields after header normalisation; `signed` says whether the
      signature equals the keyed hash of the payload. */
  datatype Request = Request(
    shared: bool, service: Option<string>, nonce: Option<string>, signature: Option<string>,
    timestamp: Option<int>, signed: bool)

  predicate Present(field: Option<string>) {
    field.Some? && Strip(field.value) != []
  }

  function Abs(x: real): real {
    if x >= 0.0 then x else -x
  }

  /** The checks before the replay cache, in the order in which the source makes them. */
  function Rejection(r: Request, now: real, window: int): Option<AuthError> {
    if !r.shared then Some(MethodUnsupported)
    else if !Present(r.service) || !Present(r.nonce) || !Present(r.signature) || r.timestamp.None?
      then Some(FieldMissing)
    else if Abs(now - r.timestamp.value as real) > window as real then Some(OutsideWindow)
    else if !r.signed then Some(BadSignature)
    else None
  }

  /** One call: the request, and the clock reading it takes. */
  datatype Arrival = Arrival(request: Request, now: real)

  /** The key and the timestamp of a request that carries them. */
  function KeyOf(r: Request): string {
    if r.service.None? || r.nonce.None? then "" else NonceKey(Strip(r.service.value), Strip(r.nonce.value))
  }

  function TimeOf(r: Request): real {
    if r.timestamp.None? then 0.0 else r.timestamp.value as real
  }

  /** What verify_request answers. */
  function Reply(seen: Seen, a: Arrival, window: int): Result<string, AuthError> {
    var why := Rejection(a.request, a.now, window);
    if why.Some? then Err(why.value)
    else if Remembers(seen, KeyOf(a.request), a.now, window) then Err(NonceUsed)
    else Ok(Strip(a.request.service.value))
  }

  /** What it leaves in the cache. */
  function AfterArrival(seen: Seen, a: Arrival, window: int): Seen {
    if Rejection(a.request, a.now, window).Some? then seen
    else Remembered(seen, KeyOf(a.request), TimeOf(a.request), a.now, window)
  }

  class SharedSecretS2SAuth {
    const replayCache: InMemoryS2SReplayCache
    const replayWindow: int

    constructor (replayCache: InMemoryS2SReplayCache, replayWindow: int)
      ensures this.replayCache == replayCache && this.replayWindow == replayWindow
    {
      this.replayCache, this.replayWindow := replayCache, replayWindow;
    }

    method VerifyRequest(r: Request, now: real) returns (identity: Result<string, AuthError>)
      modifies replayCache
      ensures identity == Reply(old(replayCache.seen), Arrival(r, now), replayWindow)
      ensures replayCache.seen == AfterArrival(old(replayCache.seen), Arrival(r, now), replayWindow)
    {
      if !r.shared {
        return Err(MethodUnsupported);
      }
      if !Present(r.service) || !Present(r.nonce) || !Present(r.signature) || r.timestamp.None? {
        return Err(FieldMissing);
      }
      if Abs(now - r.timestamp.value as real) > replayWindow as real {
        return Err(OutsideWindow);
      }
      if !r.signed {
        return Err(BadSignature);
      }
      var service := Strip(r.service.value);
      var remembered := replayCache.Remember(
        service, Strip(r.nonce.value), r.timestamp.value as real, now, replayWindow);
      return if remembered.Ok? then Ok(service) else Err(remembered.error);
    }
  }

  // ---- Runs of verify_request ---------------------------------------------

  ghost predicate WellTimed(run: seq<Arrival>) {
    forall i, j :: 0 <= i <= j < |run| ==> run[i].now <= run[j].now
  }

  /** The cache after a run, as VerifyRequest changes it. */
  function CacheAfter(run: seq<Arrival>, window: int): Seen {
    if run == [] then map[]
    else AfterArrival(CacheAfter(run[..|run| - 1], window), run[|run| - 1], window)
  }

  /** What call i of the run answers. */
  function ReplyTo(run: seq<Arrival>, window: int, i: nat): Result<string, AuthError>
    requires i < |run|
  {
    Reply(CacheAfter(run[..i], window), run[i], window)
  }

  /** Whether call i of the run returns an identity. */
  predicate Accepted(run: seq<Arrival>, window: int, i: nat)
    requires i < |run|
  {
    ReplyTo(run, window, i).Ok?
  }

  /** Call i of the run was accepted under this key with this timestamp. */
  predicate AcceptedAs(run: seq<Arrival>, window: int, i: nat, key: string, timestamp: real) {
    && i < |run| && Accepted(run, window, i)
    && KeyOf(run[i].request) == key && TimeOf(run[i].request) == timestamp
  }

  lemma PrefixAccepted(run: seq<Arrival>, window: int, n: nat, i: nat)
    requires i < n <= |run|
    ensures Accepted(run[..n], window, i) == Accepted(run, window, i) && run[..n][i] == run[i]
  {
    assert run[..n][..i] == run[..i];
  }

  /** Every cached entry is an accepted request. */
  lemma {:induction false} CachedWasAccepted(run: seq<Arrival>, window: int, key: string) returns (i: nat)
    requires key in CacheAfter(run, window)
    ensures AcceptedAs(run, window, i, key, CacheAfter(run, window)[key])
  {
    var n := |run| - 1;
    if key == KeyOf(run[n].request) && Accepted(run, window, n) {
      i := n;
    } else {
      i := CachedWasAccepted(run[..n], window, key);
      PrefixAccepted(run, window, n, i);
    }
  }

  /** The key is cached with its timestamp, or the timestamp has left the window. */
  predicate Kept(seen: Seen, key: string, ts: real, now: real, window: int) {
    (key in seen && seen[key] == ts) || now - ts > window as real
  }

  lemma AcceptedIsKept(run: seq<Arrival>, window: int, key: string, ts: real)
    requires run != [] && AcceptedAs(run, window, |run| - 1, key, ts)
    ensures Kept(CacheAfter(run, window), key, ts, run[|run| - 1].now, window)
  {
  }

  lemma KeptStaysKept(run: seq<Arrival>, window: int, key: string, ts: real, before: real)
    requires run != [] && before <= run[|run| - 1].now
    requires Kept(CacheAfter(run[..|run| - 1], window), key, ts, before, window)
    ensures Kept(CacheAfter(run, window), key, ts, run[|run| - 1].now, window)
  {
  }

  /** Every accepted request is cached until its timestamp leaves the window. */
  lemma {:induction false} AcceptedStaysCached(run: seq<Arrival>, window: int, i: nat, key: string, ts: real)
    requires WellTimed(run) && AcceptedAs(run, window, i, key, ts)
    ensures Kept(CacheAfter(run, window), key, ts, run[|run| - 1].now, window)
  {
    var n := |run| - 1;
    if i == n {
      AcceptedIsKept(run, window, key, ts);
    } else {
      PrefixAccepted(run, window, n, i);
      AcceptedStaysCached(run[..n], window, i, key, ts);
      KeptStaysKept(run, window, key, ts, run[n - 1].now);
    }
  }

  /** The unbounded reference: an earlier acceptance of the key blocks a request as
      long as the accepted timestamp is still inside the window. */
  ghost predicate Blocked(run: seq<Arrival>, window: int, i: nat)
    requires i < |run|
  {
    exists j :: 0 <= j < i && Accepted(run, window, j) && KeyOf(run[j].request) == KeyOf(run[i].request)
                && run[i].now - TimeOf(run[j].request) <= window as real
  }

  lemma RememberedIsBlocked(run: seq<Arrival>, window: int, i: nat)
    requires i < |run|
    requires Remembers(CacheAfter(run[..i], window), KeyOf(run[i].request), run[i].now, window)
    ensures Blocked(run, window, i)
  {
    var j := CachedWasAccepted(run[..i], window, KeyOf(run[i].request));
    PrefixAccepted(run, window, i, j);
  }

  lemma BlockedIsRemembered(run: seq<Arrival>, window: int, i: nat)
    requires WellTimed(run) && i < |run| && Blocked(run, window, i)
    ensures !Accepted(run, window, i)
  {
    var j :| 0 <= j < i && Accepted(run, window, j) && KeyOf(run[j].request) == KeyOf(run[i].request)
             && run[i].now - TimeOf(run[j].request) <= window as real;
    PrefixAccepted(run, window, i, j);
    AcceptedStaysCached(run[..i], window, j, KeyOf(run[j].request), TimeOf(run[j].request));
  }

  /** A header that carries something else than spaces. */
  predicate Filled(field: Option<string>) {
    field.Some? && !AllSpace(field.value)
  }

  lemma FilledIsPresent(field: Option<string>)
    ensures Filled(field) <==> Present(field)
  {
    if field.Some? {
      StripEmptyExactly(field.value);
    }
  }

  /** The request uses the shared secret and carries service, nonce, signature and time. */
  predicate Complete(r: Request) {
    r.shared && Filled(r.service) && Filled(r.nonce) && Filled(r.signature) && r.timestamp.Some?
  }

  predicate Timely(a: Arrival, window: int) {
    a.request.timestamp.Some? && -(window as real) <= a.now - a.request.timestamp.value as real <= window as real
  }

  /** What every call answers, for every run with a clock that does not go back: the first
      of these that applies is an unsupported method, a missing field, a time outside the
      window on either side, a wrong signature, a nonce that an accepted request with a
      time still inside the window has used; and if none does, the service's name. Pruning
      is invisible: the last of them is what a table that never forgets would answer. */
  lemma PruningIsInvisible(run: seq<Arrival>, window: int, i: nat)
    requires WellTimed(run) && i < |run|
    ensures var r := run[i].request;
            ReplyTo(run, window, i)
            == if !r.shared then Err(MethodUnsupported)
               else if !Complete(r) then Err(FieldMissing)
               else if !Timely(run[i], window) then Err(OutsideWindow)
               else if !r.signed then Err(BadSignature)
               else if Blocked(run, window, i) then Err(NonceUsed)
               else Ok(Strip(r.service.value))
  {
    var r := run[i].request;
    FilledIsPresent(r.service);
    FilledIsPresent(r.nonce);
    FilledIsPresent(r.signature);
    if Remembers(CacheAfter(run[..i], window), KeyOf(r), run[i].now, window) {
      RememberedIsBlocked(run, window, i);
    }
    if Blocked(run, window, i) {
      BlockedIsRemembered(run, window, i);
    }
  }

  /** So a request is accepted exactly if it is complete, timely and signed, and no earlier
      accepted one of its service and nonce has a timestamp still inside the window. */
  lemma AcceptedExactly(run: seq<Arrival>, window: int, i: nat)
    requires WellTimed(run) && i < |run|
    ensures Accepted(run, window, i)
        <==> && Complete(run[i].request) && Timely(run[i], window) && run[i].request.signed
             && !exists j :: 0 <= j < i && Accepted(run, window, j)
                             && KeyOf(run[j].request) == KeyOf(run[i].request)
                             && run[i].now - TimeOf(run[j].request) <= window as real
  {
    PruningIsInvisible(run, window, i);
  }

  /** Every cached entry comes from a signed request for that service and nonce. */
  lemma CachedWasSigned(run: seq<Arrival>, window: int, key: string) returns (i: nat)
    requires WellTimed(run) && key in CacheAfter(run, window)
    ensures i < |run| && Accepted(run, window, i) && Complete(run[i].request) && run[i].request.signed
    ensures key == NonceKey(Strip(run[i].request.service.value), Strip(run[i].request.nonce.value))
    ensures CacheAfter(run, window)[key] == run[i].request.timestamp.value as real
  {
    i := CachedWasAccepted(run, window, key);
    AcceptedExactly(run, window, i);
  }

  /** The timestamps accepted for one service and nonce strictly increase over any run,
      so no request is accepted twice. */
  lemma AcceptedTimestampsIncrease(run: seq<Arrival>, window: int, i: nat, j: nat)
    requires WellTimed(run) && i < j < |run| && Accepted(run, window, i) && Accepted(run, window, j)
    requires KeyOf(run[i].request) == KeyOf(run[j].request)
    ensures run[i].request.timestamp.value < run[j].request.timestamp.value
  {
    PruningIsInvisible(run, window, j);
  }

  /** After an acceptance every cached entry is inside the window. */
  lemma CacheStaysInWindow(run: seq<Arrival>, window: int)
    requires run != [] && Accepted(run, window, |run| - 1)
    ensures forall k :: k in CacheAfter(run, window) ==>
              run[|run| - 1].now - CacheAfter(run, window)[k] <= window as real
  {
  }

  /** The second pair's service name is the first's followed by a colon and the start
      of the first's nonce. */
  ghost predicate Shifted(service: string, nonce: string, service': string, nonce': string) {
    exists moved: string :: service' == NonceKey(service, moved) && nonce == NonceKey(moved, nonce')
  }

  lemma LongerServiceIsShifted(service: string, nonce: string, service': string, nonce': string)
    requires NonceKey(service, nonce) == NonceKey(service', nonce') && |service| < |service'|
    ensures Shifted(service, nonce, service', nonce')
  {
    var key, n := NonceKey(service, nonce), |service|;
    var moved := service'[n + 1..];
    assert service' == key[..|service'|] && service == key[..n] && key[n] == ':';
    assert service' == NonceKey(service, moved);
    assert nonce == key[n + 1..] == NonceKey(moved, nonce');
  }

  /** Two requests share a cache entry exactly when they agree on service and nonce or
      one is the other with a colon shifted between the two fields: only a service
      name that contains a colon can be blocked by another service's nonce. */
  lemma KeysCollideExactly(service: string, nonce: string, service': string, nonce': string)
    ensures NonceKey(service, nonce) == NonceKey(service', nonce')
        <==> || (service == service' && nonce == nonce')
             || Shifted(service, nonce, service', nonce')
             || Shifted(service', nonce', service, nonce)
  {
    if NonceKey(service, nonce) == NonceKey(service', nonce') {
      if |service| == |service'| {
        assert service == NonceKey(service, nonce)[..|service|] == service';
        assert nonce == NonceKey(service, nonce)[|service| + 1..] == nonce';
      } else if |service| < |service'| {
        LongerServiceIsShifted(service, nonce, service', nonce');
      } else {
        LongerServiceIsShifted(service', nonce', service, nonce);
      }
    }
    if moved: string :| service' == NonceKey(service, moved) && nonce == NonceKey(moved, nonce') {
      assert NonceKey(service, NonceKey(moved, nonce')) == NonceKey(NonceKey(service, moved), nonce');
    }
    if moved: string :| service == NonceKey(service', moved) && nonce' == NonceKey(moved, nonce) {
      assert NonceKey(service', NonceKey(moved, nonce)) == NonceKey(NonceKey(service', moved), nonce);
    }
  }

  /** A well-formed, correctly signed request. */
  function Signed(service: string, nonce: string, timestamp: int): Request {
    Request(true, Some(service), Some(nonce), Some("s"), Some(timestamp), true)
  }

  /** Service "a" uses the nonce "b:c"; then service "a:b", whose nonce "c" is new, is told
      that its nonce was used. */
  lemma ColonBlocksAnotherService(window: int, at: int) returns (run: seq<Arrival>)
    requires window >= 0
    ensures WellTimed(run) && |run| == 2
    ensures run[0].request == Signed("a", "b:c", at) && run[1].request == Signed("a:b", "c", at)
    ensures Accepted(run, window, 0) && !Accepted(run, window, 1)
    ensures Rejection(run[1].request, run[1].now, window).None?
  {
    var first, second := Arrival(Signed("a", "b:c", at), at as real), Arrival(Signed("a:b", "c", at), at as real);
    run := [first, second];
    assert !HasSpace("a") && !HasSpace("b:c") && !HasSpace("a:b") && !HasSpace("c") && !HasSpace("s");
    StripKeeps("a");
    StripKeeps("b:c");
    StripKeeps("a:b");
    StripKeeps("c");
    StripKeeps("s");
    assert KeyOf(first.request) == "a:b:c" == KeyOf(second.request);
    assert run[..0] == [];
    PruningIsInvisible(run, window, 0);
    PruningIsInvisible(run, window, 1);
  }
}
