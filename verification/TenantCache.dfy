/** libs/shared/cache.py: string-encoded tenant keys, the TTL cache with its purges, and
    what it must look like from outside: a map from (tenant, namespace, key) to values. */
module TenantCache {
  import opened Wrappers
  import opened Text

  // ---- Keys ---------------------------------------------------------------

  /** A segment that _normalize_key_segment returns. */
  predicate CleanSegment(s: string) {
    s != [] && ':' !in s && !HasSpace(s)
  }

  /** _normalize_key_segment; None stands for the ValueError. */
  function NormalizeSegment(raw: string): (r: Option<string>)
    ensures r.Some? ==> CleanSegment(r.value)
  {
    var s := Strip(raw);
    if CleanSegment(s) then Some(s) else None
  }

  datatype Address = Address(tenant: string, namespace: string, key: string) {
    predicate Valid() {
      CleanSegment(tenant) && CleanSegment(namespace) && CleanSegment(key)
    }
  }

  /** _tenant_cache_prefix on clean segments. */
  function TenantPrefix(prefix: string, tenant: string, namespace: string): string {
    prefix + [':'] + ("tenant" + [':'] + (tenant + [':'] + (namespace + [':'])))
  }

  function Encode(prefix: string, a: Address): string {
    TenantPrefix(prefix, a.tenant, a.namespace) + a.key
  }

  /** build_tenant_cache_key from raw arguments. */
  function Resolve(tenant: string, namespace: string, key: string): (r: Option<Address>)
    ensures r.Some? ==> r.value.Valid()
  {
    var t, n, k := NormalizeSegment(tenant), NormalizeSegment(namespace), NormalizeSegment(key);
    if t.None? || n.None? || k.None? then None else Some(Address(t.value, n.value, k.value))
  }

  lemma TenantWordIsClean()
    ensures ':' !in "tenant"
  {
  }

  lemma KeyParts(prefix: string, tenant: string, namespace: string, rest: string)
    requires ':' !in prefix && ':' !in tenant && ':' !in namespace
    ensures Split(TenantPrefix(prefix, tenant, namespace) + rest, ':')
         == [prefix] + (["tenant"] + ([tenant] + ([namespace] + Split(rest, ':'))))
  {
    TenantWordIsClean();
    var c := namespace + [':'] + rest;
    var b := tenant + [':'] + c;
    var a := "tenant" + [':'] + b;
    assert TenantPrefix(prefix, tenant, namespace) + rest == prefix + [':'] + a;
    SplitAfter(prefix, a, ':');
    SplitAfter("tenant", b, ':');
    SplitAfter(tenant, c, ':');
    SplitAfter(namespace, rest, ':');
  }

  /** Distinct addresses have distinct keys. */
  lemma EncodeInjective(prefix: string, a: Address, b: Address)
    requires ':' !in prefix && a.Valid() && b.Valid() && Encode(prefix, a) == Encode(prefix, b)
    ensures a == b
  {
    KeyParts(prefix, a.tenant, a.namespace, a.key);
    KeyParts(prefix, b.tenant, b.namespace, b.key);
    SplitClean(a.key, ':');
    SplitClean(b.key, ':');
    var parts := Split(Encode(prefix, a), ':');
    assert parts[2] == a.tenant == b.tenant && parts[3] == a.namespace == b.namespace;
    assert parts[4] == a.key == b.key;
  }

  /** startswith selects exactly one tenant's namespace. */
  lemma PrefixSelectsNamespace(prefix: string, tenant: string, namespace: string, a: Address)
    requires ':' !in prefix && CleanSegment(tenant) && CleanSegment(namespace) && a.Valid()
    ensures TenantPrefix(prefix, tenant, namespace) <= Encode(prefix, a)
        <==> a.tenant == tenant && a.namespace == namespace
  {
    var p, s := TenantPrefix(prefix, tenant, namespace), Encode(prefix, a);
    if p <= s {
      assert s == p + s[|p|..];
      KeyParts(prefix, tenant, namespace, s[|p|..]);
      KeyParts(prefix, a.tenant, a.namespace, a.key);
      var parts := Split(s, ':');
      assert parts[2] == tenant == a.tenant && parts[3] == namespace == a.namespace;
    }
  }

  // ---- What raw arguments mean --------------------------------------------

  /** A raw segment is accepted exactly if, without the spaces around it, it is not empty
      and has neither a colon nor a space; and then it stands for just that. */
  lemma NormalizeExactly(raw: string)
    ensures NormalizeSegment(raw).Some?
        <==> !AllSpace(raw) && forall c :: c in Strip(raw) ==> c != ':' && !IsSpace(c)
    ensures NormalizeSegment(raw).Some? ==> NormalizeSegment(raw).value == Strip(raw)
  {
    StripEmptyExactly(raw);
    var s := Strip(raw);
    if HasSpace(s) {
      var i :| 0 <= i < |s| && IsSpace(s[i]);
      assert s[i] in s;
    }
  }

  /** Raw arguments agree if they are the same without the spaces around them. */
  predicate Agree(a: string, b: string) {
    Strip(a) == Strip(b)
  }

  /** Arguments resolve exactly if all three are accepted, each to its own segment. */
  lemma ResolveExactly(tenant: string, namespace: string, key: string)
    ensures var a := Resolve(tenant, namespace, key);
            && (a.Some? <==>
                  NormalizeSegment(tenant).Some? && NormalizeSegment(namespace).Some? && NormalizeSegment(key).Some?)
            && (a.Some? ==> a.value == Address(Strip(tenant), Strip(namespace), Strip(key)))
  {
  }

  /** Two calls meet at one cache key exactly if tenant, namespace and key agree. */
  lemma SameKeyExactly(
    prefix: string, tenant: string, namespace: string, key: string,
    tenant': string, namespace': string, key': string)
    requires ':' !in prefix
    requires Resolve(tenant, namespace, key).Some? && Resolve(tenant', namespace', key').Some?
    ensures Encode(prefix, Resolve(tenant, namespace, key).value)
         == Encode(prefix, Resolve(tenant', namespace', key').value)
        <==> Agree(tenant, tenant') && Agree(namespace, namespace') && Agree(key, key')
  {
    var a, b := Resolve(tenant, namespace, key).value, Resolve(tenant', namespace', key').value;
    if Encode(prefix, a) == Encode(prefix, b) {
      EncodeInjective(prefix, a, b);
    }
  }

  /** An invalidation hits a key exactly if tenant and namespace agree. */
  lemma InvalidationHitsExactly(
    prefix: string, tenant: string, namespace: string, key: string, tenant': string, namespace': string)
    requires ':' !in prefix && Resolve(tenant, namespace, key).Some?
    requires NormalizeSegment(tenant').Some? && NormalizeSegment(namespace').Some?
    ensures TenantPrefix(prefix, NormalizeSegment(tenant').value, NormalizeSegment(namespace').value)
            <= Encode(prefix, Resolve(tenant, namespace, key).value)
        <==> Agree(tenant, tenant') && Agree(namespace, namespace')
  {
    PrefixSelectsNamespace(
      prefix, NormalizeSegment(tenant').value, NormalizeSegment(namespace').value,
      Resolve(tenant, namespace, key).value);
  }

  // ---- Entries ------------------------------------------------------------

  /** A JSON value; only integers can be counted up. */
  datatype Json = Number(n: int) | Other(text: string)

  datatype Entry = Entry(value: Json, expiresAt: real)

  type Entries = map<string, Entry>

  /** _purge_expired on the entries. */
  function Purged(es: Entries, now: real): Entries {
    map k | k in es && es[k].expiresAt > now :: es[k]
  }

  datatype Lock = Lock(owner: string, expiresAt: real)

  type Locks = map<string, Lock>

  /** _purge_expired on the locks. */
  function PurgedLocks(ls: Locks, now: real): Locks {
    map k | k in ls && ls[k].expiresAt > now :: ls[k]
  }

  /** _build_tenant_lock_key: a cache key in the namespace "locks." + namespace. */
  function LockAddress(tenant: string, namespace: string, key: string): Option<Address> {
    var n := NormalizeSegment(namespace);
    if n.None? then None else Resolve(tenant, "locks." + n.value, key)
  }

  lemma LockNamespaceIsClean(n: string)
    requires CleanSegment(n)
    ensures CleanSegment("locks." + n) && Strip("locks." + n) == "locks." + n
  {
    var s := "locks." + n;
    assert "locks."[0] == 'l';
    forall i | 0 <= i < |s| ensures !IsSpace(s[i]) && s[i] != ':' {
      if i >= 6 {
        assert s[i] == n[i - 6] && n[i - 6] in n;
      }
    }
    StripKeeps(s);
  }

  /** A lock's arguments resolve exactly as a value's do, to a key of its own namespace. */
  lemma LockAddressExactly(tenant: string, namespace: string, key: string)
    ensures LockAddress(tenant, namespace, key).Some? <==> Resolve(tenant, namespace, key).Some?
    ensures LockAddress(tenant, namespace, key).Some? ==>
              LockAddress(tenant, namespace, key).value
              == Address(Strip(tenant), "locks." + Strip(namespace), Strip(key))
  {
    var n := NormalizeSegment(namespace);
    if n.Some? {
      LockNamespaceIsClean(n.value);
    }
  }

  /** Two calls meet at one lock exactly if tenant, namespace and key agree. */
  lemma SameLockExactly(
    prefix: string, tenant: string, namespace: string, key: string,
    tenant': string, namespace': string, key': string)
    requires ':' !in prefix
    requires LockAddress(tenant, namespace, key).Some? && LockAddress(tenant', namespace', key').Some?
    ensures Encode(prefix, LockAddress(tenant, namespace, key).value)
         == Encode(prefix, LockAddress(tenant', namespace', key').value)
        <==> Agree(tenant, tenant') && Agree(namespace, namespace') && Agree(key, key')
  {
    LockAddressExactly(tenant, namespace, key);
    LockAddressExactly(tenant', namespace', key');
    var a, b := LockAddress(tenant, namespace, key).value, LockAddress(tenant', namespace', key').value;
    if Encode(prefix, a) == Encode(prefix, b) {
      EncodeInjective(prefix, a, b);
      assert a.namespace[6..] == Strip(namespace) && b.namespace[6..] == Strip(namespace');
    }
  }

  predicate Free(ls: Locks, key: string, now: real) {
    key !in PurgedLocks(ls, now)
  }

  predicate OwnedBy(ls: Locks, key: string, owner: string, now: real) {
    key in PurgedLocks(ls, now) && PurgedLocks(ls, now)[key].owner == owner
  }

  /** The locks after asking for one: taken if it is free. */
  function Acquired(ls: Locks, key: string, owner: string, ttl: int, now: real, later: real): Locks {
    if Free(ls, key, now) then PurgedLocks(ls, now)[key := Lock(owner, later + ttl as real)]
    else PurgedLocks(ls, now)
  }

  /** The locks after giving one back: gone if the owner has it. */
  function GivenBack(ls: Locks, key: string, owner: string, now: real): Locks {
    if OwnedBy(ls, key, owner, now) then PurgedLocks(ls, now) - {key} else PurgedLocks(ls, now)
  }

  function Counted(es: Entries, k: string): Option<int> {
    if k !in es then Some(0) else if es[k].value.Number? then Some(es[k].value.n) else None
  }

  datatype CacheError = ValueError | TypeError

  // ---- What the methods do to the entries ---------------------------------

  /** One method call with its raw arguments, at a clock reading. */
  datatype Call =
    | GetCall(tenant: string, namespace: string, key: string, now: real)
    | SetCall(tenant: string, namespace: string, key: string, value: Json, ttl: Option<int>, now: real)
    | DeleteCall(tenant: string, namespace: string, key: string, now: real)
    | InvalidateCall(tenant: string, namespace: string, now: real)
    | IncrementCall(
        tenant: string, namespace: string, key: string, amount: int, ttl: Option<int>, now: real, later: real)
    | LockCall(tenant: string, namespace: string, key: string, now: real)

  function Seconds(ttl: Option<int>, default: int): int {
    if ttl.Some? then ttl.value else default
  }

  /** The operation on an address that a call amounts to; None if its arguments do not
      resolve. */
  function Meant(c: Call, defaultTtl: int): Option<Op> {
    match c
    case GetCall(t, n, k, now) => OnAddress(Resolve(t, n, k), a => Get(a, now))
    case SetCall(t, n, k, v, ttl, now) =>
      OnAddress(Resolve(t, n, k), a => Set(a, v, Seconds(ttl, defaultTtl), now))
    case DeleteCall(t, n, k, now) => OnAddress(Resolve(t, n, k), a => Delete(a, now))
    case InvalidateCall(t, n, now) =>
      var tenant, namespace := NormalizeSegment(t), NormalizeSegment(n);
      if tenant.None? || namespace.None? then None else Some(Invalidate(tenant.value, namespace.value, now))
    case IncrementCall(t, n, k, amount, ttl, now, later) =>
      OnAddress(Resolve(t, n, k), a => Increment(a, amount, Seconds(ttl, defaultTtl), now, later))
    case LockCall(t, n, k, now) => OnAddress(LockAddress(t, n, k), a => Get(a, now))
  }

  function OnAddress(a: Option<Address>, op: Address -> Op): Option<Op> {
    if a.None? then None else Some(op(a.value))
  }

  /** The entries after a call; a read purges even if its arguments do not resolve. */
  function AfterCall(prefix: string, defaultTtl: int, es: Entries, c: Call): Entries {
    var op := Meant(c, defaultTtl);
    if op.Some? then Next(prefix, es, op.value) else if c.GetCall? then Purged(es, c.now) else es
  }

  /** What a read answers. */
  function Answer(
    prefix: string, es: Entries, tenant: string, namespace: string, key: string, now: real)
    : Result<Option<Json>, CacheError>
  {
    var a := Resolve(tenant, namespace, key);
    if a.None? then Err(ValueError)
    else
      var kept, k := Purged(es, now), Encode(prefix, a.value);
      Ok(if k in kept then Some(kept[k].value) else None)
  }

  class InMemoryTenantCache {
    const prefix: string
    const defaultTtl: int
    const lockTtl: int
    var entries: Entries
    var locks: Locks

    constructor (prefix: string, defaultTtl: int, lockTtl: int)
      requires NormalizeSegment(prefix).Some? && defaultTtl > 0 && lockTtl > 0
      ensures this.prefix == NormalizeSegment(prefix).value && CleanSegment(this.prefix)
      ensures this.defaultTtl == defaultTtl && this.lockTtl == lockTtl
      ensures entries == map[] && locks == map[]
    {
      this.prefix, this.defaultTtl, this.lockTtl := NormalizeSegment(prefix).value, defaultTtl, lockTtl;
      entries, locks := map[], map[];
    }

    method PurgeExpired(now: real)
      modifies this
      ensures entries == Purged(old(entries), now) && locks == PurgedLocks(old(locks), now)
    {
      PurgeEntries(now);
      var expired := set k | k in locks && locks[k].expiresAt <= now;
      while expired != {}
        invariant entries == Purged(old(entries), now)
        invariant expired <= locks.Keys
        invariant forall k :: k in locks ==> k in old(locks) && locks[k] == old(locks)[k]
        invariant forall k :: k in old(locks) && old(locks)[k].expiresAt > now ==> k in locks
        invariant forall k :: k in locks ==> (k in expired <==> locks[k].expiresAt <= now)
        decreases expired
      {
        var k :| k in expired;
        expired := expired - {k};
        locks := locks - {k};
      }
    }

    method PurgeEntries(now: real)
      modifies this`entries
      ensures entries == Purged(old(entries), now)
    {
      var expired := set k | k in entries && entries[k].expiresAt <= now;
      while expired != {}
        invariant expired <= entries.Keys
        invariant forall k :: k in entries ==> k in old(entries) && entries[k] == old(entries)[k]
        invariant forall k :: k in old(entries) && old(entries)[k].expiresAt > now ==> k in entries
        invariant forall k :: k in entries ==> (k in expired <==> entries[k].expiresAt <= now)
        decreases expired
      {
        var k :| k in expired;
        expired := expired - {k};
        entries := entries - {k};
      }
    }

    method GetJson(tenant: string, namespace: string, key: string, now: real)
      returns (r: Result<Option<Json>, CacheError>)
      modifies this
      ensures entries == AfterCall(prefix, defaultTtl, old(entries), GetCall(tenant, namespace, key, now))
      ensures locks == PurgedLocks(old(locks), now)
      ensures r == Answer(prefix, old(entries), tenant, namespace, key, now)
    {
      PurgeExpired(now);
      var a := Resolve(tenant, namespace, key);
      if a.None? {
        return Err(ValueError);
      }
      var k := Encode(prefix, a.value);
      if k !in entries {
        return Ok(None);
      }
      return Ok(Some(entries[k].value));
    }

    method SetJson(tenant: string, namespace: string, key: string, value: Json, ttl: Option<int>, now: real)
      returns (r: Result<(), CacheError>)
      modifies this`entries
      ensures entries == AfterCall(prefix, defaultTtl, old(entries), SetCall(tenant, namespace, key, value, ttl, now))
      ensures r == if Resolve(tenant, namespace, key).None? || Seconds(ttl, defaultTtl) <= 0
                   then Err(ValueError) else Ok(())
    {
      var a := Resolve(tenant, namespace, key);
      var seconds := if ttl.Some? then ttl.value else defaultTtl;
      if a.None? || seconds <= 0 {
        return Err(ValueError);
      }
      entries := entries[Encode(prefix, a.value) := Entry(value, now + seconds as real)];
      return Ok(());
    }

    /** Whether something was stored, expired or not: there is no purge here. */
    method Delete(tenant: string, namespace: string, key: string, ghost now: real)
      returns (r: Result<bool, CacheError>)
      modifies this`entries
      ensures entries == AfterCall(prefix, defaultTtl, old(entries), DeleteCall(tenant, namespace, key, now))
      ensures var a := Resolve(tenant, namespace, key);
              r == if a.None? then Err(ValueError) else Ok(Encode(prefix, a.value) in old(entries))
    {
      var a := Resolve(tenant, namespace, key);
      if a.None? {
        return Err(ValueError);
      }
      var k := Encode(prefix, a.value);
      var found := k in entries;
      entries := entries - {k};
      return Ok(found);
    }

    method InvalidateNamespace(tenant: string, namespace: string, ghost now: real)
      returns (r: Result<int, CacheError>)
      modifies this`entries
      ensures entries == AfterCall(prefix, defaultTtl, old(entries), InvalidateCall(tenant, namespace, now))
      ensures r == if NormalizeSegment(tenant).None? || NormalizeSegment(namespace).None? then Err(ValueError)
                   else Ok(|old(entries)| - |entries|)
    {
      var t, n := NormalizeSegment(tenant), NormalizeSegment(namespace);
      if t.None? || n.None? {
        return Err(ValueError);
      }
      var p := TenantPrefix(prefix, t.value, n.value);
      var doomed := set k | k in entries && p <= k;
      var count := |doomed|;
      while doomed != {}
        invariant doomed <= entries.Keys
        invariant count - |doomed| == |old(entries)| - |entries|
        invariant forall k :: k in entries ==> k in old(entries) && entries[k] == old(entries)[k]
        invariant forall k :: k in old(entries) && !(p <= k) ==> k in entries
        invariant forall k :: k in entries ==> (k in doomed <==> p <= k)
        decreases doomed
      {
        var k :| k in doomed;
        doomed := doomed - {k};
        RemovingShrinks(entries, k);
        entries := entries - {k};
      }
      return Ok(count);
    }

    method Increment(
      tenant: string, namespace: string, key: string, amount: int, ttl: Option<int>, now: real, later: real)
      returns (r: Result<int, CacheError>)
      modifies this
      ensures entries == AfterCall(prefix, defaultTtl, old(entries),
                                   IncrementCall(tenant, namespace, key, amount, ttl, now, later))
      ensures var a := Resolve(tenant, namespace, key);
              if a.None? then r == Err(ValueError) && locks == old(locks)
              else
                var current := Counted(Purged(old(entries), now), Encode(prefix, a.value));
                && locks == PurgedLocks(old(locks), now)
                && r == if current.None? then Err(TypeError)
                        else if Seconds(ttl, defaultTtl) <= 0 then Err(ValueError) else Ok(current.value + amount)
    {
      var a := Resolve(tenant, namespace, key);
      if a.None? {
        return Err(ValueError);
      }
      var k := Encode(prefix, a.value);
      PurgeExpired(now);
      var current := 0;
      if k in entries {
        if !entries[k].value.Number? {
          return Err(TypeError);
        }
        current := entries[k].value.n;
      }
      var seconds := if ttl.Some? then ttl.value else defaultTtl;
      if seconds <= 0 {
        return Err(ValueError);
      }
      entries := entries[k := Entry(Number(current + amount), later + seconds as real)];
      return Ok(current + amount);
    }

    method AcquireLock(
      tenant: string, namespace: string, key: string, owner: string, ttl: Option<int>, now: real, later: real)
      returns (r: Result<bool, CacheError>)
      modifies this
      ensures entries == AfterCall(prefix, defaultTtl, old(entries), LockCall(tenant, namespace, key, now))
      ensures var a := LockAddress(tenant, namespace, key);
              if a.None? then r.Err? && locks == old(locks)
              else
                var k, seconds := Encode(prefix, a.value), Seconds(ttl, lockTtl);
                if Free(old(locks), k, now) && (Strip(owner) == [] || seconds <= 0)
                then r.Err? && locks == PurgedLocks(old(locks), now)
                else && r == Ok(Free(old(locks), k, now))
                     && locks == Acquired(old(locks), k, Strip(owner), seconds, now, later)
    {
      var a := LockAddress(tenant, namespace, key);
      if a.None? {
        return Err(ValueError);
      }
      var k := Encode(prefix, a.value);
      PurgeExpired(now);
      if k in locks {
        return Ok(false);
      }
      var seconds := if ttl.Some? then ttl.value else lockTtl;
      if Strip(owner) == [] || seconds <= 0 {
        return Err(ValueError);
      }
      locks := locks[k := Lock(Strip(owner), later + seconds as real)];
      return Ok(true);
    }

    method ReleaseLock(tenant: string, namespace: string, key: string, owner: string, now: real)
      returns (r: Result<bool, CacheError>)
      modifies this
      ensures entries == AfterCall(prefix, defaultTtl, old(entries), LockCall(tenant, namespace, key, now))
      ensures var a := LockAddress(tenant, namespace, key);
              if a.None? then r.Err? && locks == old(locks)
              else
                var k := Encode(prefix, a.value);
                if !Free(old(locks), k, now) && Strip(owner) == []
                then r.Err? && locks == PurgedLocks(old(locks), now)
                else && r == Ok(OwnedBy(old(locks), k, Strip(owner), now))
                     && locks == GivenBack(old(locks), k, Strip(owner), now)
    {
      var a := LockAddress(tenant, namespace, key);
      if a.None? {
        return Err(ValueError);
      }
      var k := Encode(prefix, a.value);
      PurgeExpired(now);
      if k !in locks {
        return Ok(false);
      }
      if Strip(owner) == [] {
        return Err(ValueError);
      }
      if locks[k].owner != Strip(owner) {
        return Ok(false);
      }
      locks := locks - {k};
      return Ok(true);
    }
  }

  function Without(es: Entries, prefix: string): Entries {
    map k | k in es && !(prefix <= k) :: es[k]
  }

  lemma RemovingShrinks(es: Entries, k: string)
    requires k in es
    ensures |es - {k}| == |es| - 1
  {
    assert (es - {k}).Keys == es.Keys - {k};
  }

  // ---- Runs against a tenant-indexed map ----------------------------------

  datatype Op =
    | Get(at: Address, now: real)
    | Set(at: Address, value: Json, ttl: int, now: real)
    | Delete(at: Address, now: real)
    | Invalidate(tenant: string, namespace: string, now: real)
    | Increment(at: Address, amount: int, ttl: int, now: real, later: real)

  predicate ValidOp(op: Op) {
    if op.Invalidate? then CleanSegment(op.tenant) && CleanSegment(op.namespace)
    else op.at.Valid() && (op.Increment? ==> op.now <= op.later)
  }

  function TenantOf(op: Op): string {
    if op.Invalidate? then op.tenant else op.at.tenant
  }

  /** The string-keyed cache, as the methods above change it. */
  function Next(prefix: string, es: Entries, op: Op): Entries {
    match op
    case Get(_, now) => Purged(es, now)
    case Set(a, v, ttl, now) => if ttl <= 0 then es else es[Encode(prefix, a) := Entry(v, now + ttl as real)]
    case Delete(a, _) => es - {Encode(prefix, a)}
    case Invalidate(t, n, _) => Without(es, TenantPrefix(prefix, t, n))
    case Increment(a, amount, ttl, now, later) =>
      var kept, k := Purged(es, now), Encode(prefix, a);
      var current := Counted(kept, k);
      if current.None? || ttl <= 0 then kept
      else kept[k := Entry(Number(current.value + amount), later + ttl as real)]
  }

  type Table = map<Address, Entry>

  /** What a reader at `now` sees of a stored entry. */
  function Visible(o: Option<Entry>, now: real): Option<Entry> {
    if o.Some? && o.value.expiresAt > now then o else None
  }

  function At(t: Table, a: Address): Option<Entry> {
    if a in t then Some(t[a]) else None
  }

  function Stored(prefix: string, es: Entries, a: Address): Option<Entry> {
    if Encode(prefix, a) in es then Some(es[Encode(prefix, a)]) else None
  }

  /** The integer a counter shows: 0 if nothing is visible, None if it is no integer. */
  function Tally(o: Option<Entry>): Option<int> {
    if o.None? then Some(0) else if o.value.value.Number? then Some(o.value.value.n) else None
  }

  /** The reference: a map by tenant, namespace and key that never purges anything. */
  function RefNext(t: Table, op: Op): Table {
    match op
    case Get(_, _) => t
    case Set(a, v, ttl, now) => if ttl <= 0 then t else t[a := Entry(v, now + ttl as real)]
    case Delete(a, _) => t - {a}
    case Invalidate(tenant, namespace, _) =>
      map a | a in t && !(a.tenant == tenant && a.namespace == namespace) :: t[a]
    case Increment(a, amount, ttl, now, later) =>
      var current := Tally(Visible(At(t, a), now));
      if current.None? || ttl <= 0 then t
      else t[a := Entry(Number(current.value + amount), later + ttl as real)]
  }

  function Run(prefix: string, ops: seq<Op>): Entries {
    if ops == [] then map[] else Next(prefix, Run(prefix, ops[..|ops| - 1]), ops[|ops| - 1])
  }

  function RefRun(ops: seq<Op>): Table {
    if ops == [] then map[] else RefNext(RefRun(ops[..|ops| - 1]), ops[|ops| - 1])
  }

  /** Valid operations with a clock that does not go back. */
  ghost predicate Timely(ops: seq<Op>) {
    && (forall i :: 0 <= i < |ops| ==> ValidOp(ops[i]))
    && (forall i, j :: 0 <= i <= j < |ops| ==> ops[i].now <= ops[j].now)
  }

  /** From `now` on both show the same at an address. */
  predicate Shows(prefix: string, es: Entries, t: Table, a: Address, now: real) {
    Visible(Stored(prefix, es, a), now) == Visible(At(t, a), now)
  }

  lemma PurgeShows(prefix: string, es: Entries, t: Table, a: Address, last: real, now: real)
    requires Shows(prefix, es, t, a, last) && last <= now
    ensures Shows(prefix, es, t, a, now) && Shows(prefix, Purged(es, now), t, a, now)
    ensures Stored(prefix, Purged(es, now), a) == Visible(At(t, a), now)
  {
  }

  lemma StepShows(prefix: string, es: Entries, t: Table, a: Address, op: Op, last: real)
    requires ':' !in prefix && a.Valid() && ValidOp(op) && last <= op.now
    requires Shows(prefix, es, t, a, last)
    requires !op.Invalidate? ==> Shows(prefix, es, t, op.at, last)
    ensures Shows(prefix, Next(prefix, es, op), RefNext(t, op), a, op.now)
  {
    PurgeShows(prefix, es, t, a, last, op.now);
    if op.Invalidate? {
      PrefixSelectsNamespace(prefix, op.tenant, op.namespace, a);
    } else {
      PurgeShows(prefix, es, t, op.at, last, op.now);
      if Encode(prefix, a) == Encode(prefix, op.at) {
        EncodeInjective(prefix, a, op.at);
      }
    }
  }

  /** The string-keyed cache with its purges shows at every address, at every later
      time, what the unpurged tenant-indexed map shows. */
  lemma {:induction false} CacheRefinesTable(prefix: string, ops: seq<Op>, a: Address, now: real)
    requires ':' !in prefix && Timely(ops) && a.Valid()
    requires ops != [] ==> ops[|ops| - 1].now <= now
    ensures Shows(prefix, Run(prefix, ops), RefRun(ops), a, now)
  {
    if ops != [] {
      var init, op := ops[..|ops| - 1], ops[|ops| - 1];
      assert ValidOp(op);
      CacheRefinesTable(prefix, init, a, op.now);
      if !op.Invalidate? {
        CacheRefinesTable(prefix, init, op.at, op.now);
      }
      StepShows(prefix, Run(prefix, init), RefRun(init), a, op, op.now);
      PurgeShows(prefix, Run(prefix, ops), RefRun(ops), a, op.now, now);
    }
  }

  /** Reads and counters answer as the reference does, for every run. */
  lemma ReadsReturnLastLiveWrite(prefix: string, ops: seq<Op>, a: Address, now: real)
    requires ':' !in prefix && Timely(ops) && a.Valid()
    requires ops != [] ==> ops[|ops| - 1].now <= now
    ensures Stored(prefix, Purged(Run(prefix, ops), now), a) == Visible(At(RefRun(ops), a), now)
    ensures Counted(Purged(Run(prefix, ops), now), Encode(prefix, a)) == Tally(Visible(At(RefRun(ops), a), now))
  {
    CacheRefinesTable(prefix, ops, a, now);
    PurgeShows(prefix, Run(prefix, ops), RefRun(ops), a, now, now);
  }

  // ---- Tenants do not interfere -------------------------------------------

  /** The operations of one tenant, in order. */
  function OnlyOf(ops: seq<Op>, tenant: string): seq<Op> {
    if ops == [] then []
    else
      OnlyOf(ops[..|ops| - 1], tenant)
      + (if TenantOf(ops[|ops| - 1]) == tenant then [ops[|ops| - 1]] else [])
  }

  lemma OtherTenantsStep(t: Table, op: Op, a: Address)
    requires TenantOf(op) != a.tenant
    ensures At(RefNext(t, op), a) == At(t, a)
  {
  }

  lemma SameStep(t: Table, u: Table, op: Op, a: Address)
    requires At(t, a) == At(u, a)
    requires !op.Invalidate? ==> At(t, op.at) == At(u, op.at)
    ensures At(RefNext(t, op), a) == At(RefNext(u, op), a)
  {
  }

  lemma {:induction false} OwnOpsDecide(ops: seq<Op>, a: Address)
    ensures At(RefRun(ops), a) == At(RefRun(OnlyOf(ops, a.tenant)), a)
  {
    if ops != [] {
      var init, op := ops[..|ops| - 1], ops[|ops| - 1];
      var mine := OnlyOf(init, a.tenant);
      OwnOpsDecide(init, a);
      if TenantOf(op) == a.tenant {
        if !op.Invalidate? {
          OwnOpsDecide(init, op.at);
        }
        SameStep(RefRun(init), RefRun(mine), op, a);
        assert (mine + [op])[..|mine|] == mine;
      } else {
        OtherTenantsStep(RefRun(init), op, a);
        assert mine + [] == mine;
      }
    }
  }

  /** Leaving calls out keeps a run valid and in time. */
  lemma {:induction false} OwnOpsAreTimely(ops: seq<Op>, tenant: string)
    requires Timely(ops)
    ensures Timely(OnlyOf(ops, tenant))
    ensures forall i :: 0 <= i < |OnlyOf(ops, tenant)| ==>
              ops != [] && OnlyOf(ops, tenant)[i].now <= ops[|ops| - 1].now
  {
    if ops != [] {
      var n := |ops| - 1;
      OwnOpsAreTimely(ops[..n], tenant);
      assert n > 0 ==> ops[n - 1].now <= ops[n].now;
    }
  }

  /** What a tenant reads depends on nothing but that tenant's own operations: dropping
      everybody else's from the run changes no read. */
  lemma TenantsDoNotInterfere(prefix: string, ops: seq<Op>, a: Address, now: real)
    requires ':' !in prefix && Timely(ops) && a.Valid()
    requires ops != [] ==> ops[|ops| - 1].now <= now
    ensures Stored(prefix, Purged(Run(prefix, ops), now), a)
         == Stored(prefix, Purged(Run(prefix, OnlyOf(ops, a.tenant)), now), a)
  {
    ReadsReturnLastLiveWrite(prefix, ops, a, now);
    OwnOpsDecide(ops, a);
    OwnOpsAreTimely(ops, a.tenant);
    ReadsReturnLastLiveWrite(prefix, OnlyOf(ops, a.tenant), a, now);
  }

  // ---- Calls with raw arguments -------------------------------------------

  lemma ForeignOpInvisible(prefix: string, es: Entries, op: Op, a: Address, now: real)
    requires ':' !in prefix && a.Valid() && ValidOp(op) && TenantOf(op) != a.tenant && op.now <= now
    ensures Visible(Stored(prefix, Next(prefix, es, op), a), now) == Visible(Stored(prefix, es, a), now)
  {
    if op.Invalidate? {
      PrefixSelectsNamespace(prefix, op.tenant, op.namespace, a);
    } else if Encode(prefix, op.at) == Encode(prefix, a) {
      EncodeInjective(prefix, op.at, a);
    }
  }

  /** What a call means, it means for the tenant it names. */
  lemma MeantTenant(c: Call, defaultTtl: int)
    requires c.IncrementCall? ==> c.now <= c.later
    ensures Meant(c, defaultTtl).Some? ==>
              && ValidOp(Meant(c, defaultTtl).value) && TenantOf(Meant(c, defaultTtl).value) == Strip(c.tenant)
              && Meant(c, defaultTtl).value.now == c.now
  {
  }

  lemma AnswerIsVisible(prefix: string, es: Entries, tenant: string, namespace: string, key: string, now: real)
    ensures var a := Resolve(tenant, namespace, key);
            Answer(prefix, es, tenant, namespace, key, now)
            == if a.None? then Err(ValueError)
               else
                 var e := Visible(Stored(prefix, es, a.value), now);
                 Ok(if e.None? then None else Some(e.value.value))
  {
  }

  /** No method call of one tenant changes what a read answers to another, now or later. */
  lemma ForeignCallInvisible(
    prefix: string, defaultTtl: int, es: Entries, c: Call, tenant: string, namespace: string, key: string, now: real)
    requires ':' !in prefix && c.now <= now && !Agree(c.tenant, tenant)
    requires c.IncrementCall? ==> c.now <= c.later
    ensures Answer(prefix, AfterCall(prefix, defaultTtl, es, c), tenant, namespace, key, now)
         == Answer(prefix, es, tenant, namespace, key, now)
  {
    var a := Resolve(tenant, namespace, key);
    AnswerIsVisible(prefix, es, tenant, namespace, key, now);
    AnswerIsVisible(prefix, AfterCall(prefix, defaultTtl, es, c), tenant, namespace, key, now);
    MeantTenant(c, defaultTtl);
    ResolveExactly(tenant, namespace, key);
    if a.Some? && Meant(c, defaultTtl).Some? {
      ForeignOpInvisible(prefix, es, Meant(c, defaultTtl).value, a.value, now);
    }
  }

  /** A value that was set is read back under agreeing arguments until its TTL is over, and
      under no others does the write show. */
  lemma WriteShowsExactly(
    prefix: string, defaultTtl: int, es: Entries, c: Call, tenant: string, namespace: string, key: string, now: real)
    requires ':' !in prefix && c.SetCall? && c.now <= now && Seconds(c.ttl, defaultTtl) > 0
    requires Resolve(c.tenant, c.namespace, c.key).Some? && Resolve(tenant, namespace, key).Some?
    ensures Answer(prefix, AfterCall(prefix, defaultTtl, es, c), tenant, namespace, key, now)
         == if Agree(c.tenant, tenant) && Agree(c.namespace, namespace) && Agree(c.key, key)
            then Ok(if now < c.now + (if c.ttl.Some? then c.ttl.value else defaultTtl) as real
                    then Some(c.value) else None)
            else Answer(prefix, es, tenant, namespace, key, now)
  {
    SameKeyExactly(prefix, tenant, namespace, key, c.tenant, c.namespace, c.key);
  }

  // ---- Deletes look at what is stored, not at what is visible --------------

  /** A read or a count of anybody's purged the cache at or after a reading. */
  ghost predicate PurgedSince(ops: seq<Op>, reading: real) {
    exists i :: 0 <= i < |ops| && (ops[i].Get? || ops[i].Increment?) && ops[i].now >= reading
  }

  /** The key is stored exactly when the reference has the entry and no purge has come by
      since it expired; and then the two entries are the same. */
  ghost predicate InClosedForm(prefix: string, es: Entries, t: Table, ops: seq<Op>, a: Address) {
    && (Encode(prefix, a) in es <==> a in t && !PurgedSince(ops, t[a].expiresAt))
    && (Encode(prefix, a) in es ==> a in t && es[Encode(prefix, a)] == t[a])
  }

  lemma PurgedSinceSnoc(ops: seq<Op>, op: Op, reading: real)
    ensures PurgedSince(ops + [op], reading)
        <==> PurgedSince(ops, reading) || ((op.Get? || op.Increment?) && op.now >= reading)
  {
    var all := ops + [op];
    assert all[|ops|] == op;
    if i :| 0 <= i < |ops| && (ops[i].Get? || ops[i].Increment?) && ops[i].now >= reading {
      assert all[i] == ops[i];
    }
  }

  /** A purge drops the entry exactly if it has expired. */
  lemma PurgeInClosedForm(prefix: string, es: Entries, t: Table, ops: seq<Op>, op: Op, a: Address)
    requires InClosedForm(prefix, es, t, ops, a) && (op.Get? || op.Increment?)
    ensures InClosedForm(prefix, Purged(es, op.now), t, ops + [op], a)
  {
    if a in t {
      PurgedSinceSnoc(ops, op, t[a].expiresAt);
    }
  }

  /** An operation that neither purges nor touches the address changes nothing there. */
  lemma ElsewhereInClosedForm(
    prefix: string, es: Entries, t: Table, ops: seq<Op>, op: Op, a: Address, es': Entries, t': Table)
    requires InClosedForm(prefix, es, t, ops, a) && !op.Get? && !op.Increment?
    requires Stored(prefix, es', a) == Stored(prefix, es, a) && At(t', a) == At(t, a)
    ensures InClosedForm(prefix, es', t', ops + [op], a)
  {
    if a in t {
      PurgedSinceSnoc(ops, op, t[a].expiresAt);
    }
  }

  /** A fresh entry expires after everything that has happened. */
  lemma FreshInClosedForm(
    prefix: string, ops: seq<Op>, op: Op, a: Address, e: Entry, es': Entries, t': Table)
    requires Timely(ops + [op]) && op.now < e.expiresAt
    requires Stored(prefix, es', a) == At(t', a) == Some(e)
    ensures InClosedForm(prefix, es', t', ops + [op], a)
  {
    var all := ops + [op];
    assert all[|ops|] == op;
    assert forall i :: 0 <= i < |all| ==> all[i].now <= op.now;
  }

  lemma SetInClosedForm(prefix: string, es: Entries, t: Table, ops: seq<Op>, op: Op, a: Address)
    requires ':' !in prefix && a.Valid() && ValidOp(op) && Timely(ops + [op]) && op.Set?
    requires InClosedForm(prefix, es, t, ops, a)
    ensures InClosedForm(prefix, Next(prefix, es, op), RefNext(t, op), ops + [op], a)
  {
    var es', t' := Next(prefix, es, op), RefNext(t, op);
    if op.at == a && op.ttl > 0 {
      FreshInClosedForm(prefix, ops, op, a, Entry(op.value, op.now + op.ttl as real), es', t');
    } else {
      if Encode(prefix, op.at) == Encode(prefix, a) {
        EncodeInjective(prefix, op.at, a);
      }
      ElsewhereInClosedForm(prefix, es, t, ops, op, a, es', t');
    }
  }

  lemma RemovalInClosedForm(prefix: string, es: Entries, t: Table, ops: seq<Op>, op: Op, a: Address)
    requires ':' !in prefix && a.Valid() && ValidOp(op) && (op.Delete? || op.Invalidate?)
    requires InClosedForm(prefix, es, t, ops, a)
    ensures InClosedForm(prefix, Next(prefix, es, op), RefNext(t, op), ops + [op], a)
  {
    var es', t' := Next(prefix, es, op), RefNext(t, op);
    if op.Invalidate? {
      PrefixSelectsNamespace(prefix, op.tenant, op.namespace, a);
    } else if Encode(prefix, op.at) == Encode(prefix, a) {
      EncodeInjective(prefix, op.at, a);
    }
    if a in t' || a !in t {
      ElsewhereInClosedForm(prefix, es, t, ops, op, a, es', t');
    }
  }

  lemma IncrementInClosedForm(prefix: string, es: Entries, t: Table, ops: seq<Op>, op: Op, a: Address)
    requires ':' !in prefix && a.Valid() && ValidOp(op) && Timely(ops + [op]) && op.Increment?
    requires InClosedForm(prefix, es, t, ops, a)
    requires Counted(Purged(es, op.now), Encode(prefix, op.at)) == Tally(Visible(At(t, op.at), op.now))
    ensures InClosedForm(prefix, Next(prefix, es, op), RefNext(t, op), ops + [op], a)
  {
    var es', t' := Next(prefix, es, op), RefNext(t, op);
    var current := Tally(Visible(At(t, op.at), op.now));
    PurgeInClosedForm(prefix, es, t, ops, op, a);
    if current.Some? && op.ttl > 0 {
      if op.at == a {
        var e := Entry(Number(current.value + op.amount), op.later + op.ttl as real);
        FreshInClosedForm(prefix, ops, op, a, e, es', t');
      } else if Encode(prefix, op.at) == Encode(prefix, a) {
        EncodeInjective(prefix, op.at, a);
      }
    }
  }

  /** What a run leaves stored: a live entry until it is overwritten or removed, an expired
      one until the next read or count by anybody. */
  lemma {:induction false} StoredInClosedForm(prefix: string, ops: seq<Op>, a: Address)
    requires ':' !in prefix && Timely(ops) && a.Valid()
    ensures InClosedForm(prefix, Run(prefix, ops), RefRun(ops), ops, a)
  {
    if ops != [] {
      var init, op := ops[..|ops| - 1], ops[|ops| - 1];
      var es, t := Run(prefix, init), RefRun(init);
      assert ops == init + [op] && ValidOp(op);
      StoredInClosedForm(prefix, init, a);
      match op
      case Get(_, _) => PurgeInClosedForm(prefix, es, t, init, op, a);
      case Set(_, _, _, _) => SetInClosedForm(prefix, es, t, init, op, a);
      case Delete(_, _) => RemovalInClosedForm(prefix, es, t, init, op, a);
      case Invalidate(_, _, _) => RemovalInClosedForm(prefix, es, t, init, op, a);
      case Increment(_, _, _, _, _) =>
        ReadsReturnLastLiveWrite(prefix, init, op.at, op.now);
        IncrementInClosedForm(prefix, es, t, init, op, a);
    }
  }

  /** After any run, delete contradicts a read made at the same time exactly if the last
      write there has expired and nobody has read or counted anything since: then it
      reports a removal that nobody could see. */
  lemma DeleteContradictsReadExactly(prefix: string, ops: seq<Op>, a: Address, now: real)
    requires ':' !in prefix && Timely(ops) && a.Valid()
    requires ops != [] ==> ops[|ops| - 1].now <= now
    ensures (Encode(prefix, a) in Run(prefix, ops)) != Stored(prefix, Purged(Run(prefix, ops), now), a).Some?
        <==> a in RefRun(ops) && RefRun(ops)[a].expiresAt <= now && !PurgedSince(ops, RefRun(ops)[a].expiresAt)
  {
    StoredInClosedForm(prefix, ops, a);
  }

  /** One write suffices: after its TTL, with no read in between, delete answers True. */
  lemma ExpiredEntryIsDeleted(prefix: string, a: Address, v: Json, ttl: int) returns (ops: seq<Op>, now: real)
    requires ':' !in prefix && a.Valid() && ttl > 0
    ensures Timely(ops + [Delete(a, now)])
    ensures Encode(prefix, a) in Run(prefix, ops) && Stored(prefix, Purged(Run(prefix, ops), now), a).None?
  {
    var write := Set(a, v, ttl, 0.0);
    ops, now := [write], ttl as real;
    assert ops[..0] == [];
    assert Run(prefix, ops) == map[Encode(prefix, a) := Entry(v, now)];
  }
}
