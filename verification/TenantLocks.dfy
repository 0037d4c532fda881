/** The tenant locks of libs/shared/cache.py (InMemoryTenantCache.AcquireLock and
    ReleaseLock): acquisition, release and expiry, for every run with a clock that does not go back. */
module TenantLocks {
  import opened TenantCache

  /** A call with arguments that pass validation; reads purge as well. */
  datatype Op =
    | Acquire(key: string, owner: string, ttl: int, now: real, later: real)
    | Release(key: string, owner: string, now: real)
    | Read(now: real)

  function Next(ls: Locks, op: Op): Locks {
    match op
    case Acquire(k, owner, ttl, now, later) =>
      Acquired(ls, k, owner, ttl, now, later)
    case Release(k, owner, now) => GivenBack(ls, k, owner, now)
    case Read(now) => PurgedLocks(ls, now)
  }

  function Run(ops: seq<Op>): Locks {
    if ops == [] then map[] else Next(Run(ops[..|ops| - 1]), ops[|ops| - 1])
  }

  ghost predicate Timely(ops: seq<Op>) {
    forall i, j :: 0 <= i <= j < |ops| ==> ops[i].now <= ops[j].now
  }

  /** Operation i takes the lock. */
  predicate Grants(ops: seq<Op>, i: nat, key: string)
    requires i < |ops|
  {
    ops[i].Acquire? && ops[i].key == key && Free(Run(ops[..i]), key, ops[i].now)
  }

  /** Operation i gives the lock back. */
  predicate Frees(ops: seq<Op>, i: nat, key: string)
    requires i < |ops|
  {
    ops[i].Release? && ops[i].key == key && OwnedBy(Run(ops[..i]), key, ops[i].owner, ops[i].now)
  }

  /** When the acquisition made by operation i runs out. */
  function Expiry(ops: seq<Op>, i: nat): real
    requires i < |ops| && ops[i].Acquire?
  {
    ops[i].later + ops[i].ttl as real
  }

  ghost predicate Untouched(ops: seq<Op>, key: string, from: nat, to: nat)
    requires to <= |ops|
  {
    forall j :: from < j < to ==> !Grants(ops, j, key) && !Frees(ops, j, key)
  }

  /** The stored lock of a key comes from acquisition i, and nothing happened since. */
  ghost predicate HeldSince(ops: seq<Op>, ls: Locks, key: string, i: nat) {
    && i < |ops| && Grants(ops, i, key)
    && key in ls && ls[key] == Lock(ops[i].owner, Expiry(ops, i))
    && Untouched(ops, key, i, |ops|)
  }

  /** An acquisition is over: given back, or run out. */
  ghost predicate Over(ops: seq<Op>, key: string, i: nat, n: nat, now: real)
    requires i < n <= |ops| && ops[i].Acquire?
  {
    || (exists r :: i < r < n && Frees(ops, r, key))
    || Expiry(ops, i) <= now
  }

  lemma PrefixSame(ops: seq<Op>, n: nat, i: nat, key: string)
    requires i < n <= |ops|
    ensures Grants(ops[..n], i, key) == Grants(ops, i, key) && Frees(ops[..n], i, key) == Frees(ops, i, key)
  {
    assert ops[..n][..i] == ops[..i];
  }

  /** Whatever is stored comes from one acquisition that nothing has ended. */
  lemma {:induction false} StoredIsHeld(ops: seq<Op>, key: string) returns (i: nat)
    requires key in Run(ops)
    ensures HeldSince(ops, Run(ops), key, i)
  {
    var n := |ops| - 1;
    var init, op := ops[..n], ops[n];
    if op.Acquire? && Grants(ops, n, key) {
      i := n;
    } else {
      i := StoredIsHeld(init, key);
      forall j | 0 <= j < n
        ensures Grants(init, j, key) == Grants(ops, j, key) && Frees(init, j, key) == Frees(ops, j, key)
      {
        PrefixSame(ops, n, j, key);
      }
      assert init[i] == ops[i];
    }
  }

  /** Every acquisition is still stored or over. */
  lemma {:induction false} GrantedIsStoredOrOver(ops: seq<Op>, key: string, i: nat)
    requires Timely(ops) && i < |ops| && Grants(ops, i, key)
    ensures (key in Run(ops) && Run(ops)[key] == Lock(ops[i].owner, Expiry(ops, i)))
         || Over(ops, key, i, |ops|, ops[|ops| - 1].now)
  {
    var n := |ops| - 1;
    if i < n {
      var init, op := ops[..n], ops[n];
      PrefixSame(ops, n, i, key);
      assert init[i] == ops[i];
      GrantedIsStoredOrOver(init, key, i);
      if Over(init, key, i, n, init[n - 1].now) {
        if r :| i < r < n && Frees(init, r, key) {
          PrefixSame(ops, n, r, key);
        }
      } else if key !in Run(ops) || Run(ops)[key] != Lock(ops[i].owner, Expiry(ops, i)) {
        if Expiry(ops, i) > op.now {
          assert Frees(ops, n, key);
        }
      }
    }
  }

  /** Ownership intervals of one lock never overlap: a later acquisition comes after the
      earlier one was released by its owner or has expired. */
  lemma LockExclusion(ops: seq<Op>, key: string, i: nat, j: nat)
    requires Timely(ops) && i < j < |ops| && Grants(ops, i, key) && Grants(ops, j, key)
    ensures Over(ops, key, i, j, ops[j].now)
  {
    var past := ops[..j];
    PrefixSame(ops, j, i, key);
    assert past[i] == ops[i];
    GrantedIsStoredOrOver(past, key, i);
    if Over(past, key, i, j, past[j - 1].now) {
      if r :| i < r < j && Frees(past, r, key) {
        PrefixSame(ops, j, r, key);
      }
    }
  }

  /** A release succeeds only for the owner name of the one acquisition that is current:
      unexpired, and neither released nor taken over since. */
  lemma ReleaseNeedsOwner(ops: seq<Op>, key: string, r: nat) returns (i: nat)
    requires r < |ops| && Frees(ops, r, key)
    ensures i < r && Grants(ops, i, key) && ops[i].owner == ops[r].owner
    ensures Expiry(ops, i) > ops[r].now && Untouched(ops, key, i, r)
  {
    var past := ops[..r];
    i := StoredIsHeld(past, key);
    forall j | 0 <= j < r
      ensures Grants(past, j, key) == Grants(ops, j, key) && Frees(past, j, key) == Frees(ops, j, key)
    {
      PrefixSame(ops, r, j, key);
    }
    assert past[i] == ops[i];
  }

  /** A lock is granted exactly if every earlier acquisition of it is over, and given back
      exactly if one that is not over has that owner. */
  lemma GrantedExactly(ops: seq<Op>, key: string, n: nat)
    requires Timely(ops) && n < |ops|
    ensures Grants(ops, n, key) <==>
            && ops[n].Acquire? && ops[n].key == key
            && forall i :: 0 <= i < n && Grants(ops, i, key) ==> Over(ops, key, i, n, ops[n].now)
  {
    var past := ops[..n];
    if Grants(ops, n, key) {
      forall i | 0 <= i < n && Grants(ops, i, key) ensures Over(ops, key, i, n, ops[n].now) {
        LockExclusion(ops, key, i, n);
      }
    } else if ops[n].Acquire? && ops[n].key == key {
      var i := StoredIsHeld(past, key);
      CurrentIsNotOver(ops, key, i, n);
    }
  }

  /** An acquisition that is still stored and has not run out is not over. */
  lemma CurrentIsNotOver(ops: seq<Op>, key: string, i: nat, n: nat)
    requires n < |ops| && HeldSince(ops[..n], Run(ops[..n]), key, i) && !Free(Run(ops[..n]), key, ops[n].now)
    ensures i < n && Grants(ops, i, key) && !Over(ops, key, i, n, ops[n].now)
    ensures ops[..n][i] == ops[i]
  {
    var past := ops[..n];
    PrefixSame(ops, n, i, key);
    assert past[i] == ops[i];
    forall r | i < r < n ensures !Frees(ops, r, key) {
      PrefixSame(ops, n, r, key);
    }
  }

  lemma FreedExactly(ops: seq<Op>, key: string, n: nat)
    requires Timely(ops) && n < |ops|
    ensures Frees(ops, n, key) <==>
            && ops[n].Release? && ops[n].key == key
            && exists i :: 0 <= i < n && Grants(ops, i, key) && ops[i].owner == ops[n].owner
                           && !Over(ops, key, i, n, ops[n].now)
  {
    if Frees(ops, n, key) {
      var i := StoredIsHeld(ops[..n], key);
      CurrentIsNotOver(ops, key, i, n);
      assert ops[i].owner == ops[n].owner;
    }
    if ops[n].Release? && ops[n].key == key {
      if i :| 0 <= i < n && Grants(ops, i, key) && ops[i].owner == ops[n].owner && !Over(ops, key, i, n, ops[n].now) {
        var past := ops[..n];
        PrefixSame(ops, n, i, key);
        assert past[i] == ops[i];
        GrantedIsStoredOrOver(past, key, i);
        if Over(past, key, i, n, past[n - 1].now) {
          if r :| i < r < n && Frees(past, r, key) {
            PrefixSame(ops, n, r, key);
          }
        }
      }
    }
  }
}
