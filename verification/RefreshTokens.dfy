/** AuthTokenService of libs/shared/auth.py: issuing, rotating and revoking opaque
    refresh tokens of which only the hash is stored. */
module RefreshTokens {
  import opened Wrappers
  import opened Text
  import opened Runs

  datatype Identity = Identity(tenant: string, subject: string, roles: seq<string>)

  /** What issue_token_pair insists on. */
  predicate Acceptable(who: Identity) {
    && MatchesTenantPattern(who.tenant)
    && Strip(who.subject) != []
    && forall i :: 0 <= i < |who.roles| ==> Strip(who.roles[i]) != []
  }

  /** Which identities can log in. */
  lemma AcceptableExactly(who: Identity)
    ensures Acceptable(who)
        <==> && ValidatedTenantId(who.tenant) == Some(who.tenant) && !AllSpace(who.subject)
             && forall role :: role in who.roles ==> !AllSpace(role)
  {
    StripEmptyExactly(who.subject);
    forall role ensures Strip(role) == [] <==> AllSpace(role) {
      StripEmptyExactly(role);
    }
    if MatchesTenantPattern(who.tenant) {
      assert !HasSpace(who.tenant);
      StripKeeps(who.tenant);
    }
  }

  datatype Record = Record(
    who: Identity, jti: string, issuedAt: int, expiresAt: int,
    revokedAt: Option<int>, replacedBy: Option<string>)
  {
    predicate Live() {
      revokedAt.None?
    }
  }

  type Records = map<string, Record>

  datatype AuthError = InvalidIdentity | InvalidOrUsed | Expired

  /** What the environment supplies when a pair is issued. */
  datatype Supply = Supply(token: string, jti: string, issuedAt: int)

  function NewRecord(who: Identity, supply: Supply, ttl: int): Record {
    Record(who, supply.jti, supply.issuedAt, supply.issuedAt + ttl, None, None)
  }

  /** InMemoryRefreshTokenStore.revoke. */
  function Revoked(rs: Records, hash: string, at: int, replacedBy: Option<string>): Records {
    if hash !in rs then rs
    else rs[hash := rs[hash].(revokedAt := Some(at), replacedBy := replacedBy)]
  }

  predicate Rotates(rs: Records, hash: string, now: int) {
    hash in rs && rs[hash].Live() && now < rs[hash].expiresAt
  }

  /** refresh_token_pair: reject, revoke what expired, or save the successor and
      revoke the predecessor. */
  function Refreshed(rs: Records, hash: string, now: int, newHash: string, supply: Supply, ttl: int): Records {
    if hash !in rs || !rs[hash].Live() then rs
    else if now >= rs[hash].expiresAt then Revoked(rs, hash, now, None)
    else Revoked(rs[newHash := NewRecord(rs[hash].who, supply, ttl)], hash, now, Some(supply.jti))
  }

  class AuthTokenService {
    const hash: string -> string
    const ttl: int
    var records: Records

    /** Everything stored went through issue_token_pair. */
    ghost predicate Valid()
      reads this
    {
      forall h :: h in records ==> Acceptable(records[h].who)
    }

    constructor (hash: string -> string, ttl: int)
      requires ttl > 0
      ensures Valid() && this.hash == hash && this.ttl == ttl && records == map[]
    {
      this.hash, this.ttl, records := hash, ttl, map[];
    }

    method IssueTokenPair(who: Identity, supply: Supply) returns (r: Result<string, AuthError>)
      requires Valid()
      modifies this
      ensures Valid()
      ensures r == if Acceptable(who) then Ok(supply.token) else Err(InvalidIdentity)
      ensures records == if Acceptable(who)
                         then old(records)[hash(supply.token) := NewRecord(who, supply, ttl)]
                         else old(records)
    {
      if !Acceptable(who) {
        return Err(InvalidIdentity);
      }
      records := records[hash(supply.token) :=
        Record(who, supply.jti, supply.issuedAt, supply.issuedAt + ttl, None, None)];
      return Ok(supply.token);
    }

    method Revoke(tokenHash: string, at: int, replacedBy: Option<string>)
      requires Valid()
      modifies this
      ensures Valid()
      ensures records == Revoked(old(records), tokenHash, at, replacedBy)
    {
      if tokenHash in records {
        records := records[tokenHash := records[tokenHash].(revokedAt := Some(at), replacedBy := replacedBy)];
      }
    }

    method RefreshTokenPair(token: string, now: int, supply: Supply) returns (r: Result<string, AuthError>)
      requires Valid()
      modifies this
      ensures Valid()
      ensures r.Ok? <==> Rotates(old(records), hash(token), now)
      ensures r.Ok? ==> r.value == supply.token
      ensures r == Err(Expired) <==>
              && hash(token) in old(records) && old(records)[hash(token)].Live()
              && now >= old(records)[hash(token)].expiresAt
      ensures r.Err? ==> r.error != InvalidIdentity
      ensures records == Refreshed(old(records), hash(token), now, hash(supply.token), supply, ttl)
    {
      var tokenHash := hash(token);
      if tokenHash !in records || records[tokenHash].revokedAt.Some? {
        return Err(InvalidOrUsed);
      }
      var record := records[tokenHash];
      if now >= record.expiresAt {
        Revoke(tokenHash, now, None);
        return Err(Expired);
      }
      r := IssueTokenPair(record.who, supply);
      var newHash := hash(supply.token);
      var successor := if newHash in records then Some(records[newHash].jti) else None;
      Revoke(tokenHash, now, successor);
    }

    method RevokeRefreshToken(token: string, now: int)
      requires Valid()
      modifies this
      ensures Valid()
      ensures records == Revoked(old(records), hash(token), now, None)
    {
      Revoke(hash(token), now, None);
    }
  }

  // ---- Runs ---------------------------------------------------------------

  datatype Op =
    | Login(who: Identity, newHash: string, supply: Supply)
    | Refresh(hash: string, now: int, newHash: string, supply: Supply)
    | Revoke(hash: string, now: int)

  /** The records, and what the run remembers about them: the login family each belongs
      to, the newest record of each family, and the records that were rotated. */
  datatype System = System(
    records: Records, family: map<string, nat>, newest: seq<string>, rotated: seq<string>)

  const INITIAL := System(map[], map[], [], [])

  /** A login of an unacceptable identity changes nothing. Neither does, here, a call that
      would issue a token issued before: tokens are fresh and their hashes do not collide. */
  function Next(s: System, op: Op, ttl: int): System {
    match op
    case Login(who, h, supply) =>
      if !Acceptable(who) || h in s.records then s
      else System(s.records[h := NewRecord(who, supply, ttl)], s.family[h := |s.newest|],
                  s.newest + [h], s.rotated)
    case Refresh(used, now, h, supply) =>
      if Rotates(s.records, used, now) && h in s.records then s
      else
        var records := Refreshed(s.records, used, now, h, supply, ttl);
        if !Rotates(s.records, used, now) || used !in s.family || s.family[used] >= |s.newest|
        then s.(records := records)
        else System(records, s.family[h := s.family[used]], s.newest[s.family[used] := h], s.rotated + [used])
    case Revoke(h, now) => s.(records := Revoked(s.records, h, now, None))
  }

  function StepOf(ttl: int): (System, Op) -> System {
    (s, op) => Next(s, op, ttl)
  }

  function Run(s: System, ops: seq<Op>, ttl: int): System {
    Fold(StepOf(ttl), s, ops)
  }

  /** The newest record of a family is stored and belongs to it. */
  predicate Heads(s: System, f: nat)
    requires f < |s.newest|
  {
    s.newest[f] in s.records && s.newest[f] in s.family && s.family[s.newest[f]] == f
  }

  /** A record belongs to a family with whose newest record it shares the identity, and it
      is that newest record if it is live. */
  predicate Follows(s: System, h: string)
    requires h in s.records
  {
    && h in s.family && s.family[h] < |s.newest|
    && var newest := s.newest[s.family[h]];
       && newest in s.records && s.records[newest].who == s.records[h].who
       && (s.records[h].Live() ==> newest == h)
  }

  /** Only the newest record of a family can be live, and a family has one identity. */
  ghost predicate Chained(s: System) {
    && s.family.Keys == s.records.Keys
    && (forall f {:trigger Heads(s, f)} :: 0 <= f < |s.newest| ==> Heads(s, f))
    && (forall h {:trigger Follows(s, h)} :: h in s.records ==> Follows(s, h))
  }

  /** No record was rotated twice, and rotated records are revoked. */
  ghost predicate RotatedOnce(s: System) {
    && (forall i :: 0 <= i < |s.rotated| ==> s.rotated[i] in s.records && !s.records[s.rotated[i]].Live())
    && (forall i, j :: 0 <= i < j < |s.rotated| ==> s.rotated[i] != s.rotated[j])
  }

  /** A new record opens a family of its own. */
  lemma FamilyAdded(s: System, h: string, record: Record)
    requires Chained(s) && h !in s.records
    ensures Chained(System(s.records[h := record], s.family[h := |s.newest|], s.newest + [h], s.rotated))
  {
    var n := System(s.records[h := record], s.family[h := |s.newest|], s.newest + [h], s.rotated);
    forall f | 0 <= f < |n.newest| ensures Heads(n, f) {
      if f < |s.newest| {
        assert Heads(s, f) && n.newest[f] == s.newest[f];
      }
    }
    forall k | k in n.records ensures Follows(n, k) {
      if k != h {
        assert Follows(s, k) && n.newest[n.family[k]] == s.newest[s.family[k]];
      }
    }
  }

  lemma LoginKeepsChain(s: System, op: Op, ttl: int)
    requires Chained(s) && op.Login?
    ensures Chained(Next(s, op, ttl))
  {
    if Acceptable(op.who) && op.newHash !in s.records {
      FamilyAdded(s, op.newHash, NewRecord(op.who, op.supply, ttl));
    }
  }

  lemma RevokeKeepsChain(s: System, h: string, at: int, successor: Option<string>)
    requires Chained(s)
    ensures Chained(s.(records := Revoked(s.records, h, at, successor)))
  {
    var n := s.(records := Revoked(s.records, h, at, successor));
    assert n.records.Keys == s.records.Keys;
    forall f | 0 <= f < |n.newest| ensures Heads(n, f) {
      assert Heads(s, f);
    }
    forall k | k in n.records ensures Follows(n, k) {
      assert Follows(s, k);
    }
  }

  /** A record of the family of a live one takes its place. */
  lemma FamilyContinued(s: System, used: string, h: string, record: Record, revoked: Record, rotated: seq<string>)
    requires Chained(s) && used in s.records && s.records[used].Live() && h !in s.records
    requires record.who == revoked.who == s.records[used].who && !revoked.Live()
    requires Follows(s, used)
    ensures Chained(System(s.records[h := record][used := revoked], s.family[h := s.family[used]],
                           s.newest[s.family[used] := h], rotated))
  {
    var n := System(s.records[h := record][used := revoked], s.family[h := s.family[used]],
                    s.newest[s.family[used] := h], rotated);
    forall f | 0 <= f < |n.newest| ensures Heads(n, f) {
      assert Heads(s, f);
    }
    forall k | k in n.records ensures Follows(n, k) {
      if k != h {
        assert Follows(s, k);
      }
    }
  }

  /** A rotation hands the family's one live place to the successor. */
  lemma RotationKeepsChain(s: System, op: Op, ttl: int)
    requires Chained(s) && op.Refresh? && op.newHash !in s.records && Rotates(s.records, op.hash, op.now)
    ensures Chained(Next(s, op, ttl))
  {
    assert Follows(s, op.hash);
    var record := s.records[op.hash];
    FamilyContinued(s, op.hash, op.newHash, NewRecord(record.who, op.supply, ttl),
                    record.(revokedAt := Some(op.now), replacedBy := Some(op.supply.jti)), s.rotated + [op.hash]);
  }

  lemma RefreshKeepsChain(s: System, op: Op, ttl: int)
    requires Chained(s) && op.Refresh?
    ensures Chained(Next(s, op, ttl))
  {
    if !Rotates(s.records, op.hash, op.now) {
      RevokeKeepsChain(s, op.hash, op.now, None);
    } else if op.newHash !in s.records {
      RotationKeepsChain(s, op, ttl);
    }
  }

  lemma StepKeepsRotatedOnce(s: System, op: Op, ttl: int)
    requires Chained(s) && RotatedOnce(s)
    ensures RotatedOnce(Next(s, op, ttl))
  {
  }

  /** Over every run: at most one live record per login family, every token rotates at
      most once, and all records of a family share tenant, subject and roles. */
  lemma {:induction false} FamiliesStayChained(ops: seq<Op>, ttl: int)
    ensures Chained(Run(INITIAL, ops, ttl)) && RotatedOnce(Run(INITIAL, ops, ttl))
  {
    if ops != [] {
      var init, op := ops[..|ops| - 1], ops[|ops| - 1];
      FamiliesStayChained(init, ttl);
      var s := Run(INITIAL, init, ttl);
      StepKeepsRotatedOnce(s, op, ttl);
      match op
      case Login(_, _, _) => LoginKeepsChain(s, op, ttl);
      case Refresh(_, _, _, _) => RefreshKeepsChain(s, op, ttl);
      case Revoke(h, now) => RevokeKeepsChain(s, h, now, None);
    }
  }

  /** Two live records never belong to one family. */
  lemma OneLiveRecordPerFamily(ops: seq<Op>, ttl: int, h: string, k: string)
    requires var s := Run(INITIAL, ops, ttl);
             && h in s.records && k in s.records && h in s.family && k in s.family
             && s.family[h] == s.family[k] && s.records[h].Live() && s.records[k].Live()
    ensures h == k
  {
    FamiliesStayChained(ops, ttl);
    assert Follows(Run(INITIAL, ops, ttl), h) && Follows(Run(INITIAL, ops, ttl), k);
  }

  /** A record never disappears, never changes owner, and once revoked stays revoked. */
  lemma {:induction false} RecordsOnlyAge(s: System, ops: seq<Op>, ttl: int, h: string)
    requires h in s.records
    ensures var e := Run(s, ops, ttl);
            && h in e.records && e.records[h].who == s.records[h].who
            && e.records[h].expiresAt == s.records[h].expiresAt
            && (!s.records[h].Live() ==> !e.records[h].Live())
  {
    if ops != [] {
      RecordsOnlyAge(s, ops[..|ops| - 1], ttl, h);
    }
  }

  /** Call i of a run presents a refresh token and gets a new pair. */
  predicate Rotation(ops: seq<Op>, ttl: int, i: nat) {
    && i < |ops| && ops[i].Refresh?
    && Rotates(Run(INITIAL, ops[..i], ttl).records, ops[i].hash, ops[i].now)
    && ops[i].newHash !in Run(INITIAL, ops[..i], ttl).records
  }

  /** No refresh token is rotated by two calls of one run. */
  lemma TokensRotateOnce(ops: seq<Op>, ttl: int, i: nat, j: nat)
    requires i < j && Rotation(ops, ttl, i) && Rotation(ops, ttl, j)
    ensures ops[i].hash != ops[j].hash
  {
    var s, middle := Run(INITIAL, ops[..i + 1], ttl), ops[i + 1..j];
    RotationLinks(ops, ttl, i);
    assert ops[..i + 1] + middle == ops[..j];
    FoldSplits(StepOf(ttl), INITIAL, ops[..i + 1], middle);
    RecordsOnlyAge(s, middle, ttl, ops[i].hash);
  }

  // ---- The link from a rotated token to its successor ---------------------

  /** Some call from number `from` on revokes the record explicitly. */
  ghost predicate RevokedFrom(ops: seq<Op>, from: nat, h: string) {
    exists j :: from <= j < |ops| && ops[j].Revoke? && ops[j].hash == h
  }

  lemma RevokedFromSnoc(ops: seq<Op>, op: Op, h: string)
    ensures RevokedFrom(ops + [op], 0, h) <==> RevokedFrom(ops, 0, h) || (op.Revoke? && op.hash == h)
  {
    var all := ops + [op];
    assert all[|ops|] == op;
    if j :| 0 <= j < |ops| && ops[j].Revoke? && ops[j].hash == h {
      assert all[j] == ops[j];
    }
  }

  /** A revoked record keeps its link until an explicit revocation erases it, for good. */
  lemma {:induction false} LinkOverRun(s: System, ops: seq<Op>, ttl: int, h: string, jti: string)
    requires h in s.records && !s.records[h].Live() && s.records[h].replacedBy == Some(jti)
    ensures var e := Run(s, ops, ttl);
            && h in e.records && !e.records[h].Live()
            && e.records[h].replacedBy == if RevokedFrom(ops, 0, h) then None else Some(jti)
  {
    if ops != [] {
      var init, op := ops[..|ops| - 1], ops[|ops| - 1];
      LinkOverRun(s, init, ttl, h, jti);
      assert ops == init + [op];
      RevokedFromSnoc(init, op, h);
    }
  }

  lemma RevokedSuffix(ops: seq<Op>, from: nat, h: string)
    requires from <= |ops|
    ensures RevokedFrom(ops[from..], 0, h) <==> RevokedFrom(ops, from, h)
  {
    if j :| from <= j < |ops| && ops[j].Revoke? && ops[j].hash == h {
      assert ops[from..][j - from] == ops[j];
    }
  }

  /** A rotation revokes the old record and links it to the new one. */
  lemma RotationLinks(ops: seq<Op>, ttl: int, i: nat)
    requires Rotation(ops, ttl, i)
    ensures var rs := Run(INITIAL, ops[..i + 1], ttl).records;
            && ops[i].hash in rs && !rs[ops[i].hash].Live()
            && rs[ops[i].hash].replacedBy == Some(ops[i].supply.jti)
            && rs[ops[i].hash].revokedAt == Some(ops[i].now)
  {
    assert ops[..i + 1][..i] == ops[..i];
  }

  /** At the end of a run a rotated record names its successor if and only if no call after
      the rotation revoked the old token explicitly. */
  lemma LineageKeptExactly(ops: seq<Op>, ttl: int, i: nat)
    requires Rotation(ops, ttl, i)
    ensures var rs := Run(INITIAL, ops, ttl).records;
            && ops[i].hash in rs
            && (rs[ops[i].hash].replacedBy == Some(ops[i].supply.jti) <==> !RevokedFrom(ops, i + 1, ops[i].hash))
  {
    var past, future := ops[..i + 1], ops[i + 1..];
    var h, jti := ops[i].hash, ops[i].supply.jti;
    assert past + future == ops;
    FoldSplits(StepOf(ttl), INITIAL, past, future);
    RotationLinks(ops, ttl, i);
    LinkOverRun(Run(INITIAL, past, ttl), future, ttl, h, jti);
    RevokedSuffix(ops, i + 1, h);
  }

  /** Log in, refresh, revoke the old token: the link is lost. The two pairs carry
      different tokens with different hashes. */
  lemma LostLink(hash: string -> string, who: Identity, s1: Supply, s2: Supply, ttl: int)
    returns (ops: seq<Op>)
    requires Acceptable(who) && ttl > 0
    requires hash(s1.token) != hash(s2.token)
    ensures ops == [Login(who, hash(s1.token), s1),
                    Refresh(hash(s1.token), s1.issuedAt, hash(s2.token), s2),
                    Op.Revoke(hash(s1.token), s1.issuedAt)]
    ensures Rotation(ops, ttl, 1)
    ensures var rs := Run(INITIAL, ops, ttl).records;
            hash(s1.token) in rs && rs[hash(s1.token)].replacedBy.None?
  {
    var first, at := hash(s1.token), s1.issuedAt;
    var x, y, z := Login(who, first, s1), Refresh(first, at, hash(s2.token), s2), Op.Revoke(first, at);
    ops := [x, y, z];
    assert ops[..0] == [] && ops[..1] == [x] && [x][..0] == [];
    assert Run(INITIAL, [], ttl) == INITIAL;
    assert Run(INITIAL, [x], ttl) == Next(INITIAL, x, ttl);
    assert ops[1] == y && ops[2] == z && ops[..2] == [x, y] && [x, y][..1] == [x];
    LinkOverRun(Run(INITIAL, [x, y], ttl), [z], ttl, first, s2.jti);
    assert [z][0] == z && RevokedFrom([z], 0, first);
    assert ops == [x, y] + [z];
    FoldSplits(StepOf(ttl), INITIAL, [x, y], [z]);
  }

  // ---- When a token rotates, in terms of the calls before ------------------

  /** Call j issues the token with this hash: a login with an acceptable identity and a
      fresh token, or a rotation. */
  predicate Issues(ops: seq<Op>, ttl: int, j: nat, h: string) {
    && j < |ops|
    && match ops[j]
       case Login(who, newHash, _) =>
         newHash == h && Acceptable(who) && h !in Run(INITIAL, ops[..j], ttl).records
       case Refresh(_, _, newHash, _) => newHash == h && Rotation(ops, ttl, j)
       case Revoke(_, _) => false
  }

  function IssueTime(op: Op): int {
    if op.Revoke? then 0 else op.supply.issuedAt
  }

  /** Call k ends the life of a token: it rotates it, revokes it, or presents it too late. */
  predicate Ends(ops: seq<Op>, ttl: int, k: nat, h: string, deadline: int) {
    && k < |ops|
    && match ops[k]
       case Login(_, _, _) => false
       case Refresh(used, now, _, _) => used == h && (now >= deadline || Rotation(ops, ttl, k))
       case Revoke(used, _) => used == h
  }

  ghost predicate EndedSince(ops: seq<Op>, ttl: int, j: nat, h: string, deadline: int) {
    exists k :: j < k < |ops| && Ends(ops, ttl, k, h, deadline)
  }

  /** The record of a token says when it was issued and whether a call has ended its life. */
  ghost predicate RecordTells(ops: seq<Op>, ttl: int, j: nat, h: string) {
    && Issues(ops, ttl, j, h)
    && var rs := Run(INITIAL, ops, ttl).records;
       && h in rs && rs[h].issuedAt == IssueTime(ops[j]) && rs[h].expiresAt == IssueTime(ops[j]) + ttl
       && (rs[h].Live() <==> !EndedSince(ops, ttl, j, h, IssueTime(ops[j]) + ttl))
  }

  lemma PrefixTells(ops: seq<Op>, ttl: int, n: nat, j: nat, h: string, deadline: int)
    requires j < n <= |ops|
    ensures ops[..n][j] == ops[j] && Rotation(ops[..n], ttl, j) == Rotation(ops, ttl, j)
    ensures Issues(ops[..n], ttl, j, h) == Issues(ops, ttl, j, h)
    ensures Ends(ops[..n], ttl, j, h, deadline) == Ends(ops, ttl, j, h, deadline)
  {
    assert ops[..n][..j] == ops[..j];
  }

  lemma EndedSinceSnoc(ops: seq<Op>, ttl: int, j: nat, h: string, deadline: int)
    requires ops != [] && j < |ops| - 1
    ensures EndedSince(ops, ttl, j, h, deadline)
        <==> EndedSince(ops[..|ops| - 1], ttl, j, h, deadline) || Ends(ops, ttl, |ops| - 1, h, deadline)
  {
    var n := |ops| - 1;
    forall k | j < k < n ensures Ends(ops[..n], ttl, k, h, deadline) == Ends(ops, ttl, k, h, deadline) {
      PrefixTells(ops, ttl, n, k, h, deadline);
    }
    if EndedSince(ops[..n], ttl, j, h, deadline) {
      var k :| j < k < n && Ends(ops[..n], ttl, k, h, deadline);
      assert Ends(ops, ttl, k, h, deadline);
    }
  }

  /** What the last call does to the record of a token. */
  lemma LastCallTells(ops: seq<Op>, ttl: int, h: string)
    requires ops != [] && h in Run(INITIAL, ops[..|ops| - 1], ttl).records
    ensures var n := |ops| - 1;
            var before, after := Run(INITIAL, ops[..n], ttl).records, Run(INITIAL, ops, ttl).records;
            && h in after && after[h].issuedAt == before[h].issuedAt && after[h].expiresAt == before[h].expiresAt
            && (after[h].Live() <==> before[h].Live() && !Ends(ops, ttl, n, h, before[h].expiresAt))
            && !Issues(ops, ttl, n, h)
  {
  }

  /** A record appears exactly when the last call issues its token. */
  lemma LastCallIssues(ops: seq<Op>, ttl: int, h: string)
    requires ops != [] && h !in Run(INITIAL, ops[..|ops| - 1], ttl).records
    ensures var n, rs := |ops| - 1, Run(INITIAL, ops, ttl).records;
            && (h in rs <==> Issues(ops, ttl, n, h))
            && (h in rs ==> rs[h].Live() && rs[h].issuedAt == IssueTime(ops[n])
                            && rs[h].expiresAt == IssueTime(ops[n]) + ttl)
  {
  }

  /** Every record is the one that some call issued. */
  lemma {:induction false} RecordWasIssued(ops: seq<Op>, ttl: int, h: string) returns (j: nat)
    requires h in Run(INITIAL, ops, ttl).records
    ensures RecordTells(ops, ttl, j, h)
  {
    var n := |ops| - 1;
    if h in Run(INITIAL, ops[..n], ttl).records {
      j := RecordWasIssued(ops[..n], ttl, h);
      PrefixTells(ops, ttl, n, j, h, 0);
      EndedSinceSnoc(ops, ttl, j, h, IssueTime(ops[j]) + ttl);
      LastCallTells(ops, ttl, h);
    } else {
      j := n;
      LastCallIssues(ops, ttl, h);
    }
  }

  /** An issued token is on record, and was issued by one call only. */
  lemma {:induction false} IssuedIsRecorded(ops: seq<Op>, ttl: int, j: nat, h: string)
    requires Issues(ops, ttl, j, h)
    ensures RecordTells(ops, ttl, j, h)
  {
    var n := |ops| - 1;
    if j < n {
      PrefixTells(ops, ttl, n, j, h, 0);
      IssuedIsRecorded(ops[..n], ttl, j, h);
      EndedSinceSnoc(ops, ttl, j, h, IssueTime(ops[j]) + ttl);
      LastCallTells(ops, ttl, h);
    } else {
      assert ops[..n] == ops[..j];
      LastCallIssues(ops, ttl, h);
    }
  }

  /** Presented at `now` after the calls `ops`, a token would be rotated exactly if some
      earlier call issued it, its time to live has not passed since, and no call in between
      rotated it, revoked it or presented it too late. */
  lemma RotatesExactly(ops: seq<Op>, ttl: int, h: string, now: int)
    ensures Rotates(Run(INITIAL, ops, ttl).records, h, now)
        <==> exists j: nat :: && Issues(ops, ttl, j, h) && now < IssueTime(ops[j]) + ttl
                         && !EndedSince(ops, ttl, j, h, IssueTime(ops[j]) + ttl)
  {
    if h in Run(INITIAL, ops, ttl).records {
      var i := RecordWasIssued(ops, ttl, h);
    }
    forall j: nat | Issues(ops, ttl, j, h) ensures RecordTells(ops, ttl, j, h) {
      IssuedIsRecorded(ops, ttl, j, h);
    }
  }

  // ---- Whose a token is ----------------------------------------------------

  /** The identities of the effective logins, in order: one for each family. */
  function Founders(ops: seq<Op>, ttl: int): seq<Identity> {
    if ops == [] then []
    else
      var n := |ops| - 1;
      var op := ops[n];
      Founders(ops[..n], ttl)
      + (if op.Login? && Acceptable(op.who) && op.newHash !in Run(INITIAL, ops[..n], ttl).records then [op.who] else [])
  }

  /** Every token of a family belongs to the identity that logged in. */
  lemma {:induction false} OwnersAreFounders(ops: seq<Op>, ttl: int, h: string)
    requires h in Run(INITIAL, ops, ttl).records
    ensures var s := Run(INITIAL, ops, ttl);
            && h in s.family && s.family[h] < |Founders(ops, ttl)| == |s.newest|
            && s.records[h].who == Founders(ops, ttl)[s.family[h]]
  {
    var n := |ops| - 1;
    var init, op := ops[..n], ops[n];
    var s := Run(INITIAL, init, ttl);
    FoundersCount(init, ttl);
    FamiliesStayChained(init, ttl);
    if h in s.records {
      OwnersAreFounders(init, ttl, h);
    } else if op.Refresh? {
      OwnersAreFounders(init, ttl, op.hash);
    }
    FoundersCount(ops, ttl);
  }

  lemma {:induction false} FoundersCount(ops: seq<Op>, ttl: int)
    ensures |Founders(ops, ttl)| == |Run(INITIAL, ops, ttl).newest|
  {
    if ops != [] {
      FoundersCount(ops[..|ops| - 1], ttl);
    }
  }
}
