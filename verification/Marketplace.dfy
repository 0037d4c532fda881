/** libs/shared/tenant_marketplace.py: the tenant catalogue with its slug index and the
    onboarding applications with their moderation history. */
module Marketplace {
  import opened Wrappers
  import opened Text

  datatype Status = Submitted | NeedsChanges | Rejected | Provisioned
  datatype Decision = Approve | RequestChanges | Reject

  const REQUIRED_CHECKLIST: set<string> := {"profile", "contacts", "data_policy", "council_review"}
  const MODERATOR_ROLES: set<string> := {"council", "presidium", "board"}

  /** A validated submission; `done` holds the completed checklist steps. */
  datatype Submission = Submission(slug: string, expectedMembers: nat, planName: string, done: set<string>)

  datatype Profile = Profile(tenant: string, slug: string, planName: string)

  datatype ModerationRecord = ModerationRecord(
    reviewer: string, decision: Decision, decidedAt: int, comment: string, statusAfter: Status)

  datatype Application = Application(
    id: string, submission: Submission, applicant: string, submittedAt: int,
    status: Status, history: seq<ModerationRecord>)
  {
    predicate Ready() {
      status == Submitted && REQUIRED_CHECKLIST <= submission.done
    }

    predicate Live() {
      status != Rejected
    }
  }

  datatype Market = Market(
    profiles: map<string, Profile>, bySlug: map<string, string>,
    applications: map<string, Application>, applicationBySlug: map<string, string>)

  const EMPTY := Market(map[], map[], map[], map[])

  /** Who decides, and what about. */
  datatype Review = Review(
    reviewer: string, roles: set<string>, decision: Decision, tenant: Option<string>,
    decidedAt: int, comment: string)

  datatype MarketError = ValueError

  // ---- Application ids ----------------------------------------------------

  /** _validated_application_id: strip, then match _TOKEN_PATTERN or raise. */
  function ValidatedId(raw: string): Option<string> {
    var s := Strip(raw);
    if && 2 <= |s| <= 64 && IsAlnum(s[0])
       && forall i :: 1 <= i < |s| ==> IsAlnum(s[i]) || s[i] in "._:-"
    then Some(s) else None
  }

  /** The id of an application submitted without one. */
  function GeneratedId(slug: string, suffix: string): string {
    "app-" + slug + "-" + suffix
  }

  /** _SLUG_PATTERN: three to 64 characters. */
  predicate ValidSlug(s: string) {
    && 3 <= |s| <= 64
    && s[0] != '-' && s[|s| - 1] != '-'
    && forall i :: 0 <= i < |s| ==> IsLower(s[i]) || IsDigit(s[i]) || s[i] == '-'
  }

  predicate EightHexDigits(s: string) {
    |s| == 8 && forall i :: 0 <= i < |s| ==> IsDigit(s[i]) || 'a' <= s[i] <= 'f'
  }

  /** A generated id passes the validation of ids exactly for slugs of at most 51
      characters, although 64 are allowed: longer ones cannot be submitted without an id. */
  lemma GeneratedIdFitsExactly(slug: string, suffix: string)
    requires ValidSlug(slug) && EightHexDigits(suffix)
    ensures ValidatedId(GeneratedId(slug, suffix)).Some? <==> |slug| <= 51
  {
    var id := GeneratedId(slug, suffix);
    forall i | 0 <= i < |id| ensures (IsAlnum(id[i]) || id[i] == '-') && !IsSpace(id[i]) {
      if 4 <= i < 4 + |slug| {
        assert id[i] == slug[i - 4];
      } else if i >= 5 + |slug| {
        assert id[i] == suffix[i - 5 - |slug|];
      }
    }
    StripKeeps(id);
  }

  // ---- The operations on values -------------------------------------------

  predicate SlugFreeForProfile(m: Market, slug: string, tenant: string) {
    slug in m.bySlug ==> m.bySlug[slug] == tenant
  }

  predicate SlugFreeForApplication(m: Market, slug: string) {
    && slug !in m.bySlug
    && (slug in m.applicationBySlug && m.applicationBySlug[slug] in m.applications ==>
          m.applications[m.applicationBySlug[slug]].status == Rejected)
  }

  /** A fresh application whose slug and id are free. */
  predicate Accepts(m: Market, a: Application) {
    && a.status == Submitted && a.history == []
    && SlugFreeForApplication(m, a.submission.slug) && a.id !in m.applications
  }

  function WithProfile(m: Market, p: Profile): Market {
    m.(profiles := m.profiles[p.tenant := p], bySlug := m.bySlug[p.slug := p.tenant])
  }

  function WithApplication(m: Market, a: Application): Market {
    m.(applications := m.applications[a.id := a],
       applicationBySlug := m.applicationBySlug[a.submission.slug := a.id])
  }

  function StatusAfter(d: Decision): Status {
    match d case Approve => Provisioned case RequestChanges => NeedsChanges case Reject => Rejected
  }

  /** _store_moderation_result. */
  function Moderated(a: Application, r: Review): Application {
    a.(status := StatusAfter(r.decision),
       history := a.history + [ModerationRecord(Strip(r.reviewer), r.decision, r.decidedAt, Strip(r.comment),
                                                StatusAfter(r.decision))])
  }

  predicate IsModerator(r: Review) {
    MODERATOR_ROLES * r.roles != {} && Strip(r.reviewer) != []
  }

  /** What _approve_application demands, in addition to a moderator. */
  predicate MayApprove(m: Market, a: Application, r: Review) {
    && r.tenant.Some? && a.Ready() && ValidatedTenantId(r.tenant.value).Some?
    && SlugFreeForProfile(m, a.submission.slug, ValidatedTenantId(r.tenant.value).value)
    && ValidatedTenantId(r.tenant.value).value !in m.profiles
  }

  predicate MayModerate(m: Market, id: string, r: Review) {
    && IsModerator(r) && id in m.applications
    && (r.decision == Approve ==> MayApprove(m, m.applications[id], r))
  }

  /** moderate_application when it does not raise. */
  function AfterModeration(m: Market, id: string, r: Review): Market
    requires MayModerate(m, id, r)
  {
    var a := m.applications[id];
    var stored := m.(applications := m.applications[a.id := Moderated(a, r)]);
    match r.decision
    case Approve =>
      WithProfile(stored,
                  Profile(ValidatedTenantId(r.tenant.value).value, a.submission.slug, a.submission.planName))
    case RequestChanges => stored
    case Reject => stored.(applicationBySlug := m.applicationBySlug - {a.submission.slug})
  }

  // ---- The marketplace object ---------------------------------------------

  class InMemoryTenantMarketplace {
    var profiles: map<string, Profile>
    var bySlug: map<string, string>
    var applications: map<string, Application>
    var applicationBySlug: map<string, string>

    ghost function Value(): Market
      reads this
    {
      Market(profiles, bySlug, applications, applicationBySlug)
    }

    /** Applications are stored under their own id. */
    ghost predicate Valid()
      reads this
    {
      forall k :: k in applications ==> applications[k].id == k
    }

    constructor ()
      ensures Valid() && Value() == EMPTY
    {
      profiles, bySlug, applications, applicationBySlug := map[], map[], map[], map[];
    }

    method PublishProfile(p: Profile) returns (r: Result<Profile, MarketError>)
      requires Valid()
      modifies this
      ensures Valid()
      ensures r == if SlugFreeForProfile(old(Value()), p.slug, p.tenant) then Ok(p) else Err(ValueError)
      ensures Value() == Apply(old(Value()), Publish(p))
    {
      if p.slug in bySlug && bySlug[p.slug] != p.tenant {
        return Err(ValueError);
      }
      profiles := profiles[p.tenant := p];
      bySlug := bySlug[p.slug := p.tenant];
      return Ok(p);
    }

    /** `suffix` is the random part of an id that the caller does not choose. */
    method SubmitApplication(
      submission: Submission, applicant: string, submittedAt: int, asked: Option<string>, suffix: string)
      returns (r: Result<Application, MarketError>)
      requires Valid()
      modifies this
      ensures Valid()
      ensures var id := ValidatedId(if asked.Some? then asked.value else GeneratedId(submission.slug, suffix));
              && (r.Ok? <==> && Strip(applicant) != [] && SlugFreeForApplication(old(Value()), submission.slug)
                             && id.Some? && id.value !in old(applications))
              && (r.Ok? ==>
                    r.value == Application(id.value, submission, Strip(applicant), submittedAt, Submitted, []))
      ensures Value() == if r.Ok? then Apply(old(Value()), Submit(r.value)) else old(Value())
    {
      var valid := ValidatedId(if asked.Some? then asked.value else GeneratedId(submission.slug, suffix));
      if Strip(applicant) == [] || valid.None? || submission.slug in bySlug {
        return Err(ValueError);
      }
      var id := valid.value;
      if submission.slug in applicationBySlug {
        var existing := applicationBySlug[submission.slug];
        if existing in applications && applications[existing].status != Rejected {
          return Err(ValueError);
        }
      }
      if id in applications {
        return Err(ValueError);
      }
      var a := Application(id, submission, Strip(applicant), submittedAt, Submitted, []);
      applications := applications[id := a];
      applicationBySlug := applicationBySlug[submission.slug := id];
      return Ok(a);
    }

    method ModerateApplication(asked: string, r: Review) returns (result: Result<Application, MarketError>)
      requires Valid()
      modifies this
      ensures Valid()
      ensures var id := ValidatedId(asked);
              && (result.Ok? <==> id.Some? && MayModerate(old(Value()), id.value, r))
              && (result.Ok? ==> result.value == Moderated(old(applications)[id.value], r))
              && Value() == if id.Some? then Apply(old(Value()), Moderate(id.value, r)) else old(Value())
    {
      var id := ValidatedId(asked);
      if MODERATOR_ROLES * r.roles == {} || Strip(r.reviewer) == [] || id.None? || id.value !in applications {
        return Err(ValueError);
      }
      var a := applications[id.value];
      match r.decision
      case Approve =>
        result := ApproveApplication(a, r);
      case RequestChanges =>
        result := StoreModerationResult(a, r);
      case Reject =>
        result := StoreModerationResult(a, r);
        applicationBySlug := applicationBySlug - {a.submission.slug};
    }

    method StoreModerationResult(a: Application, r: Review) returns (result: Result<Application, MarketError>)
      modifies this`applications
      ensures result == Ok(Moderated(a, r))
      ensures applications == old(applications)[a.id := Moderated(a, r)]
    {
      var entry := ModerationRecord(
        Strip(r.reviewer), r.decision, r.decidedAt, Strip(r.comment), StatusAfter(r.decision));
      var updated := a.(status := StatusAfter(r.decision), history := a.history + [entry]);
      applications := applications[a.id := updated];
      return Ok(updated);
    }

    method ApproveApplication(a: Application, r: Review) returns (result: Result<Application, MarketError>)
      requires r.decision == Approve && a.id in applications && applications[a.id] == a && IsModerator(r)
      modifies this
      ensures result.Ok? <==> MayApprove(old(Value()), a, r)
      ensures result.Ok? ==> result.value == Moderated(a, r)
      ensures Value() == if result.Ok? then AfterModeration(old(Value()), a.id, r) else old(Value())
    {
      if r.tenant.None? || !a.Ready() {
        return Err(ValueError);
      }
      var tenant := ValidatedTenantId(r.tenant.value);
      if tenant.None? {
        return Err(ValueError);
      }
      if a.submission.slug in bySlug && bySlug[a.submission.slug] != tenant.value {
        return Err(ValueError);
      }
      if tenant.value in profiles {
        return Err(ValueError);
      }
      var p := Profile(tenant.value, a.submission.slug, a.submission.planName);
      result := StoreModerationResult(a, r);
      profiles := profiles[p.tenant := p];
      bySlug := bySlug[p.slug := p.tenant];
    }
  }

  // ---- Runs ---------------------------------------------------------------

  datatype Op =
    | Publish(profile: Profile)
    | Submit(application: Application)
    | Moderate(id: string, review: Review)

  /** One call; a call that raises changes nothing. */
  function Apply(m: Market, op: Op): Market {
    match op
    case Publish(p) => if SlugFreeForProfile(m, p.slug, p.tenant) then WithProfile(m, p) else m
    case Submit(a) =>
      if Accepts(m, a) then WithApplication(m, a) else m
    case Moderate(id, r) => if MayModerate(m, id, r) then AfterModeration(m, id, r) else m
  }

  function Run(m: Market, ops: seq<Op>): Market {
    if ops == [] then m else Apply(Run(m, ops[..|ops| - 1]), ops[|ops| - 1])
  }

  /** The slug index leads every profile's slug back to its tenant. */
  ghost predicate Indexed(m: Market) {
    forall t :: t in m.profiles ==>
      m.profiles[t].tenant == t && m.profiles[t].slug in m.bySlug && m.bySlug[m.profiles[t].slug] == t
  }

  /** The status is what the last moderation left, and only a first one may approve. */
  predicate Audited(a: Application) {
    && a.status == (if a.history == [] then Submitted else a.history[|a.history| - 1].statusAfter)
    && forall i :: 0 <= i < |a.history| ==>
         a.history[i].statusAfter == StatusAfter(a.history[i].decision)
         && (a.history[i].decision == Approve ==> i == 0)
  }

  ghost predicate Sound(m: Market) {
    Indexed(m) && forall k :: k in m.applications ==> m.applications[k].id == k && Audited(m.applications[k])
  }

  lemma SubmittedMeansUnmoderated(a: Application)
    requires Audited(a)
    ensures a.status == Submitted <==> a.history == []
  {
    if a.history != [] {
      var last := a.history[|a.history| - 1];
      assert last.statusAfter == StatusAfter(last.decision);
    }
  }

  lemma ModerationStaysAudited(a: Application, r: Review)
    requires Audited(a) && (r.decision == Approve ==> a.status == Submitted)
    ensures Audited(Moderated(a, r))
  {
    SubmittedMeansUnmoderated(a);
  }

  lemma StepStaysIndexed(m: Market, op: Op)
    requires Sound(m)
    ensures Indexed(Apply(m, op))
  {
  }

  lemma StepStaysSound(m: Market, op: Op)
    requires Sound(m)
    ensures Sound(Apply(m, op))
  {
    StepStaysIndexed(m, op);
    var n := Apply(m, op);
    if op.Moderate? && MayModerate(m, op.id, op.review) {
      var a := Moderated(m.applications[op.id], op.review);
      ModerationStaysAudited(m.applications[op.id], op.review);
      assert n.applications == m.applications[op.id := a];
    } else if op.Submit? && Accepts(m, op.application) {
      assert n.applications == m.applications[op.application.id := op.application];
    } else {
      assert n.applications == m.applications;
    }
  }

  /** Over every run: the slug index is exact on profiles, an application is approved at
      most once and only as its first moderation, and its status is the last record's. */
  lemma {:induction false} RunsStaySound(ops: seq<Op>)
    ensures Sound(Run(EMPTY, ops))
  {
    if ops != [] {
      RunsStaySound(ops[..|ops| - 1]);
      StepStaysSound(Run(EMPTY, ops[..|ops| - 1]), ops[|ops| - 1]);
    }
  }

  /** Distinct tenants hold distinct slugs. */
  lemma SlugsAreDistinct(ops: seq<Op>, t: string, u: string)
    requires var m := Run(EMPTY, ops);
             t in m.profiles && u in m.profiles && m.profiles[t].slug == m.profiles[u].slug
    ensures t == u
  {
    RunsStaySound(ops);
  }

  /** A slug, once taken, belongs to its tenant for good, also after the tenant has
      published under another slug. */
  lemma {:induction false} SlugsStayWithTheirTenant(m: Market, ops: seq<Op>, slug: string)
    requires slug in m.bySlug
    ensures slug in Run(m, ops).bySlug && Run(m, ops).bySlug[slug] == m.bySlug[slug]
  {
    if ops != [] {
      SlugsStayWithTheirTenant(m, ops[..|ops| - 1], slug);
    }
  }

  /** The same submission with a longer or equal history. */
  predicate Extends(a: Application, b: Application) {
    a.submission == b.submission && a.history <= b.history
  }

  lemma ReplacementExtends(m: Market, n: Market, k: string, a: Application, id: string)
    requires n.applications == m.applications[k := a] && id in m.applications
    requires k in m.applications ==> Extends(m.applications[k], a)
    ensures id in n.applications && Extends(m.applications[id], n.applications[id])
  {
  }

  lemma StepGrowsHistory(m: Market, op: Op, id: string)
    requires Sound(m) && id in m.applications
    ensures id in Apply(m, op).applications && Extends(m.applications[id], Apply(m, op).applications[id])
  {
    if op.Moderate? && MayModerate(m, op.id, op.review) {
      ReplacementExtends(m, Apply(m, op), op.id, Moderated(m.applications[op.id], op.review), id);
    } else if op.Submit? && Accepts(m, op.application) {
      ReplacementExtends(m, Apply(m, op), op.application.id, op.application, id);
    }
  }

  /** History is append-only and a submission never changes. */
  lemma {:induction false} HistoryOnlyGrows(m: Market, ops: seq<Op>, id: string)
    requires Sound(m) && id in m.applications
    ensures var e := Run(m, ops);
            Sound(e) && id in e.applications && Extends(m.applications[id], e.applications[id])
  {
    if ops != [] {
      var init := ops[..|ops| - 1];
      HistoryOnlyGrows(m, init, id);
      StepStaysSound(Run(m, init), ops[|ops| - 1]);
      StepGrowsHistory(Run(m, init), ops[|ops| - 1], id);
    }
  }

  /** Each approval adds exactly one tenant, absent before, under the submitted slug. */
  lemma ApprovalAddsTenant(m: Market, id: string, r: Review)
    requires Sound(m) && r.decision == Approve && MayModerate(m, id, r)
    ensures var n, t := AfterModeration(m, id, r), ValidatedTenantId(r.tenant.value).value;
            && t !in m.profiles && n.profiles.Keys == m.profiles.Keys + {t}
            && n.profiles[t].slug == m.applications[id].submission.slug
            && m.applications[id].history == []
            && forall u :: u in m.profiles ==> n.profiles[u] == m.profiles[u]
  {
    SubmittedMeansUnmoderated(m.applications[id]);
  }

  // ---- One live application per slug --------------------------------------

  /** The application index holds exactly the applications that are not rejected. */
  ghost predicate Exclusive(m: Market) {
    && (forall s :: s in m.applicationBySlug ==>
          && m.applicationBySlug[s] in m.applications
          && m.applications[m.applicationBySlug[s]].Live()
          && m.applications[m.applicationBySlug[s]].submission.slug == s)
    && (forall k :: k in m.applications && m.applications[k].Live() ==>
          && m.applications[k].submission.slug in m.applicationBySlug
          && m.applicationBySlug[m.applications[k].submission.slug] == k)
  }

  /** The moderations that break the index: reopening a rejected application, or
      rejecting it again while another one has taken its slug. */
  predicate Disturbs(m: Market, id: string, r: Review) {
    && id in m.applications && m.applications[id].status == Rejected
    && (r.decision == RequestChanges
        || (r.decision == Reject && m.applications[id].submission.slug in m.applicationBySlug))
  }

  /** Replacing an application by one of the same slug, index untouched. */
  lemma ReplacementKeepsExclusive(m: Market, n: Market, id: string, a: Application)
    requires Exclusive(m) && id in m.applications && a.submission == m.applications[id].submission
    requires n.applications == m.applications[id := a] && n.applicationBySlug == m.applicationBySlug
    requires a.Live()
    ensures Exclusive(n) <==> m.applications[id].Live()
  {
    if !m.applications[id].Live() {
      assert n.applications[id].Live();
    }
  }

  /** Rejecting an application and dropping its slug from the index. */
  lemma RejectionKeepsExclusive(m: Market, n: Market, id: string, a: Application)
    requires Exclusive(m) && id in m.applications && a.submission == m.applications[id].submission
    requires n.applications == m.applications[id := a] && !a.Live()
    requires n.applicationBySlug == m.applicationBySlug - {a.submission.slug}
    ensures Exclusive(n) <==> m.applications[id].Live() || a.submission.slug !in m.applicationBySlug
  {
    var slug := a.submission.slug;
    if !m.applications[id].Live() && slug in m.applicationBySlug {
      var other := m.applicationBySlug[slug];
      assert n.applications[other].Live() && slug !in n.applicationBySlug;
    }
  }

  /** A moderation keeps the index exact if and only if it is not one of those. */
  lemma ModerationKeepsExclusiveExactly(m: Market, id: string, r: Review)
    requires Sound(m) && Exclusive(m) && MayModerate(m, id, r)
    ensures Exclusive(AfterModeration(m, id, r)) <==> !Disturbs(m, id, r)
  {
    var n, a := AfterModeration(m, id, r), Moderated(m.applications[id], r);
    assert n.applications == m.applications[id := a];
    if r.decision == Reject {
      RejectionKeepsExclusive(m, n, id, a);
    } else {
      ReplacementKeepsExclusive(m, n, id, a);
    }
  }

  lemma OtherStepsKeepExclusive(m: Market, op: Op)
    requires Sound(m) && Exclusive(m) && !op.Moderate?
    ensures Exclusive(Apply(m, op))
  {
  }

  ghost predicate Undisturbed(ops: seq<Op>) {
    forall i :: 0 <= i < |ops| && ops[i].Moderate? && MayModerate(Run(EMPTY, ops[..i]), ops[i].id, ops[i].review) ==>
      !Disturbs(Run(EMPTY, ops[..i]), ops[i].id, ops[i].review)
  }

  lemma {:induction false} UndisturbedRunsAreExclusive(ops: seq<Op>)
    requires Undisturbed(ops)
    ensures Exclusive(Run(EMPTY, ops))
  {
    if ops != [] {
      var n := |ops| - 1;
      var init, op := ops[..n], ops[n];
      assert forall i :: 0 <= i < n ==> init[..i] == ops[..i];
      UndisturbedRunsAreExclusive(init);
      RunsStaySound(init);
      if op.Moderate? {
        if MayModerate(Run(EMPTY, init), op.id, op.review) {
          ModerationKeepsExclusiveExactly(Run(EMPTY, init), op.id, op.review);
        }
      } else {
        OtherStepsKeepExclusive(Run(EMPTY, init), op);
      }
    }
  }

  /** In a run without such moderations no slug has two applications that are not rejected. */
  lemma OneLiveApplicationPerSlug(ops: seq<Op>, j: string, k: string)
    requires Undisturbed(ops)
    requires var m := Run(EMPTY, ops);
             && j in m.applications && k in m.applications
             && m.applications[j].Live() && m.applications[k].Live()
             && m.applications[j].submission.slug == m.applications[k].submission.slug
    ensures j == k
  {
    UndisturbedRunsAreExclusive(ops);
  }

  // ---- What the calls demand and record -----------------------------------

  /** A moderation records the reviewer and the comment without the spaces around them, the
      decision and its time, and moves the application to the decision's status. */
  lemma ModerationRecords(a: Application, r: Review)
    ensures var n := Moderated(a, r);
            && n == a.(status := n.status, history := n.history)
            && n.status == (match r.decision
                            case Approve => Provisioned
                            case RequestChanges => NeedsChanges
                            case Reject => Rejected)
            && n.history == a.history
                 + [ModerationRecord(Strip(r.reviewer), r.decision, r.decidedAt, Strip(r.comment), n.status)]
  {
  }

  /** The four steps of the checklist are done. */
  predicate FourSteps(s: Submission) {
    "profile" in s.done && "contacts" in s.done && "data_policy" in s.done && "council_review" in s.done
  }

  /** An approval needs an unmoderated application with the four steps done, a well-formed
      tenant id that no profile has, and a slug that no other tenant has taken. */
  lemma ApprovalExactly(m: Market, a: Application, r: Review)
    requires Audited(a)
    ensures MayApprove(m, a, r)
        <==> && a.history == [] && FourSteps(a.submission)
             && r.tenant.Some? && MatchesTenantPattern(Strip(r.tenant.value))
             && Strip(r.tenant.value) !in m.profiles
             && (a.submission.slug in m.bySlug ==> m.bySlug[a.submission.slug] == Strip(r.tenant.value))
  {
    SubmittedMeansUnmoderated(a);
  }

  /** A moderation is accepted exactly from a named member of council, presidium or board
      for a known application, and for an approval under its conditions. */
  lemma ModerationExactly(m: Market, id: string, r: Review)
    ensures MayModerate(m, id, r)
        <==> && (exists role :: role in r.roles && (role == "council" || role == "presidium" || role == "board"))
             && !AllSpace(r.reviewer) && id in m.applications
             && (r.decision == Approve ==> MayApprove(m, m.applications[id], r))
  {
    StripEmptyExactly(r.reviewer);
    ModeratorExactly(r.roles);
  }

  lemma ModeratorExactly(roles: set<string>)
    ensures MODERATOR_ROLES * roles != {}
        <==> exists role :: role in roles && (role == "council" || role == "presidium" || role == "board")
  {
    if role :| role in roles && (role == "council" || role == "presidium" || role == "board") {
      assert role in MODERATOR_ROLES * roles;
    }
    if MODERATOR_ROLES * roles != {} {
      var role :| role in MODERATOR_ROLES * roles;
      assert role in roles;
    }
  }

  /** An approval publishes the tenant under the submitted slug and plan. */
  lemma ApprovalPublishes(m: Market, id: string, r: Review)
    requires r.decision == Approve && MayModerate(m, id, r)
    ensures var t, a := Strip(r.tenant.value), m.applications[id].submission;
            && AfterModeration(m, id, r).profiles == m.profiles[t := Profile(t, a.slug, a.planName)]
            && AfterModeration(m, id, r).bySlug == m.bySlug[a.slug := t]
  {
  }

  /** While the index is exact, a fresh application is accepted exactly if its id is new, no
      profile has taken its slug, and no application claims it. */
  lemma SubmissionExactly(m: Market, a: Application)
    requires Exclusive(m)
    ensures Accepts(m, a)
        <==> && a.status == Submitted && a.history == [] && a.id !in m.applications
             && a.submission.slug !in m.bySlug && !Claimed(m, a.submission.slug)
  {
    var slug := a.submission.slug;
    if slug in m.applicationBySlug {
      assert Claims(m, m.applicationBySlug[slug], slug);
    }
  }

  /** Which calls take a slug: a publication or an approval that is accepted. */
  predicate Takes(m: Market, op: Op, slug: string, t: string) {
    match op
    case Publish(p) => p.slug == slug && p.tenant == t && SlugFreeForProfile(m, slug, t)
    case Submit(_) => false
    case Moderate(id, r) =>
      && MayModerate(m, id, r) && r.decision == Approve
      && m.applications[id].submission.slug == slug && Strip(r.tenant.value) == t
  }

  /** Call n of the run takes the slug. */
  predicate TakesAt(ops: seq<Op>, n: nat, slug: string, t: string) {
    n < |ops| && Takes(Run(EMPTY, ops[..n]), ops[n], slug, t)
  }

  lemma TakesAtPrefix(ops: seq<Op>, k: nat, n: nat, slug: string, t: string)
    requires n < k <= |ops|
    ensures TakesAt(ops[..k], n, slug, t) == TakesAt(ops, n, slug, t)
  {
    assert ops[..k][..n] == ops[..n];
  }

  /** A slug that a call took belongs to its tenant at the end of the run. */
  lemma {:induction false} TakenIsHeld(ops: seq<Op>, n: nat, slug: string, t: string)
    requires TakesAt(ops, n, slug, t)
    ensures slug in Run(EMPTY, ops).bySlug && Run(EMPTY, ops).bySlug[slug] == t
  {
    var k := |ops| - 1;
    SlugStep(Run(EMPTY, ops[..k]), ops[k], slug, t);
    if n < k {
      TakesAtPrefix(ops, k, n, slug, t);
      TakenIsHeld(ops[..k], n, slug, t);
    }
  }

  /** A slug that belongs to a tenant at the end of the run was taken for it by some call. */
  lemma {:induction false} HeldWasTaken(ops: seq<Op>, slug: string, t: string) returns (n: nat)
    requires slug in Run(EMPTY, ops).bySlug && Run(EMPTY, ops).bySlug[slug] == t
    ensures TakesAt(ops, n, slug, t)
  {
    var k := |ops| - 1;
    SlugStep(Run(EMPTY, ops[..k]), ops[k], slug, t);
    if Takes(Run(EMPTY, ops[..k]), ops[k], slug, t) {
      n := k;
    } else {
      n := HeldWasTaken(ops[..k], slug, t);
      TakesAtPrefix(ops, k, n, slug, t);
    }
  }

  lemma SlugStep(m: Market, op: Op, slug: string, t: string)
    ensures (slug in Apply(m, op).bySlug && Apply(m, op).bySlug[slug] == t)
        <==> (slug in m.bySlug && m.bySlug[slug] == t) || Takes(m, op, slug, t)
  {
  }

  // ---- The property itself, and when it holds -----------------------------

  predicate Claims(m: Market, k: string, slug: string) {
    k in m.applications && m.applications[k].Live() && m.applications[k].submission.slug == slug
  }

  /** No slug has two applications that are not rejected. */
  ghost predicate OneLive(m: Market) {
    forall slug, j, k :: Claims(m, j, slug) && Claims(m, k, slug) ==> j == k
  }

  ghost predicate Claimed(m: Market, slug: string) {
    exists k :: Claims(m, k, slug)
  }

  /** The calls that give a claimed slug a second application: reopening a rejected one,
      or submitting one past an index that has lost the first. */
  ghost predicate Doubles(m: Market, op: Op) {
    match op
    case Publish(_) => false
    case Submit(a) => Accepts(m, a) && Claimed(m, a.submission.slug)
    case Moderate(id, r) =>
      && MayModerate(m, id, r) && r.decision == RequestChanges
      && m.applications[id].status == Rejected && Claimed(m, m.applications[id].submission.slug)
  }

  /** An application that claims its slug is stored under an id that did not claim
      another one before; the other applications stay. */
  lemma OneMoreClaim(m: Market, n: Market, id: string, a: Application)
    requires OneLive(m) && a.Live() && n.applications == m.applications[id := a]
    requires id in m.applications ==> a.submission == m.applications[id].submission
    ensures OneLive(n) <==> (Claims(m, id, a.submission.slug) || !Claimed(m, a.submission.slug))
  {
    var slug := a.submission.slug;
    assert Claims(n, id, slug);
    forall s, k ensures Claims(n, k, s) <==> if k == id then s == slug else Claims(m, k, s) {
    }
    if k :| Claims(m, k, slug) && k != id {
      assert Claims(n, k, slug);
    }
  }

  /** A rejection only takes a claim away. */
  lemma OneClaimLess(m: Market, n: Market, id: string, a: Application)
    requires OneLive(m) && !a.Live() && n.applications == m.applications[id := a]
    ensures OneLive(n)
  {
    forall s, k ensures Claims(n, k, s) ==> Claims(m, k, s) {
    }
  }

  /** A call keeps the property if and only if it is not one of those. */
  lemma StepKeepsOneLiveExactly(m: Market, op: Op)
    requires Sound(m) && OneLive(m)
    ensures OneLive(Apply(m, op)) <==> !Doubles(m, op)
  {
    var n := Apply(m, op);
    if op.Submit? && Accepts(m, op.application) {
      OneMoreClaim(m, n, op.application.id, op.application);
    } else if op.Moderate? && MayModerate(m, op.id, op.review) {
      var a := Moderated(m.applications[op.id], op.review);
      assert n.applications == m.applications[op.id := a];
      if op.review.decision == Reject {
        OneClaimLess(m, n, op.id, a);
      } else {
        OneMoreClaim(m, n, op.id, a);
      }
    } else {
      assert forall s, k :: Claims(n, k, s) <==> Claims(m, k, s);
    }
  }

  ghost predicate AlwaysOneLive(ops: seq<Op>) {
    forall n :: 0 <= n <= |ops| ==> OneLive(Run(EMPTY, ops[..n]))
  }

  ghost predicate NeverDoubles(ops: seq<Op>) {
    forall n :: 0 <= n < |ops| ==> !Doubles(Run(EMPTY, ops[..n]), ops[n])
  }

  lemma PrefixRuns(ops: seq<Op>, n: nat)
    requires n < |ops|
    ensures Run(EMPTY, ops[..n + 1]) == Apply(Run(EMPTY, ops[..n]), ops[n])
  {
    assert ops[..n + 1] == ops[..n] + [ops[n]];
    OneStep(ops[..n], ops[n]);
  }

  lemma {:induction false} WithoutDoublingOneLive(ops: seq<Op>, n: nat)
    requires NeverDoubles(ops) && n <= |ops|
    ensures OneLive(Run(EMPTY, ops[..n]))
  {
    if n > 0 {
      WithoutDoublingOneLive(ops, n - 1);
      RunsStaySound(ops[..n - 1]);
      PrefixRuns(ops, n - 1);
      StepKeepsOneLiveExactly(Run(EMPTY, ops[..n - 1]), ops[n - 1]);
    }
  }

  /** A run has at most one live application per slug throughout if and only if none of
      its calls doubles a claim. */
  lemma OneLiveExactly(ops: seq<Op>)
    ensures AlwaysOneLive(ops) <==> NeverDoubles(ops)
  {
    if NeverDoubles(ops) {
      forall n | 0 <= n <= |ops| ensures OneLive(Run(EMPTY, ops[..n])) {
        WithoutDoublingOneLive(ops, n);
      }
    }
    if AlwaysOneLive(ops) {
      forall n | 0 <= n < |ops| ensures !Doubles(Run(EMPTY, ops[..n]), ops[n]) {
        RunsStaySound(ops[..n]);
        PrefixRuns(ops, n);
        assert OneLive(Run(EMPTY, ops[..n]));
        assert OneLive(Run(EMPTY, ops[..n + 1]));
        StepKeepsOneLiveExactly(Run(EMPTY, ops[..n]), ops[n]);
      }
    }
  }

  /** While the index is exact, no submission doubles a claim, and a moderation does only
      if it breaks the index as well. */
  lemma ExactIndexNeverDoubles(m: Market, op: Op)
    requires Sound(m) && Exclusive(m) && Doubles(m, op)
    ensures op.Moderate? && Disturbs(m, op.id, op.review)
  {
  }

  lemma OneStep(ops: seq<Op>, op: Op)
    ensures Run(EMPTY, ops + [op]) == Apply(Run(EMPTY, ops), op)
  {
    assert (ops + [op])[..|ops|] == ops;
  }

  lemma SlugTaken(m: Market, ops: seq<Op>, b: Application)
    requires Run(EMPTY, ops) == m && Accepts(m, b)
    ensures Run(EMPTY, ops + [Submit(b)]) == WithApplication(m, b)
  {
    OneStep(ops, Submit(b));
  }

  /** An application rejected in an otherwise empty marketplace leaves its slug free. */
  lemma RejectedAtOnce(a: Application, reject: Review)
    requires a.status == Submitted && a.history == []
    requires IsModerator(reject) && reject.decision == Reject
    ensures Apply(WithApplication(EMPTY, a), Moderate(a.id, reject))
         == Market(map[], map[], map[a.id := Moderated(a, reject)], map[])
  {
    var m := WithApplication(EMPTY, a);
    assert m.applicationBySlug - {a.submission.slug} == map[];
    assert m.applications[a.id := Moderated(a, reject)] == map[a.id := Moderated(a, reject)];
  }

  /** Submit an application, reject it, and let another one take its slug. */
  lemma SlugRetaken(a: Application, b: Application, reject: Review) returns (ops: seq<Op>)
    requires a.id != b.id && a.submission.slug == b.submission.slug
    requires a.status == b.status == Submitted && a.history == b.history == []
    requires IsModerator(reject) && reject.decision == Reject
    ensures Run(EMPTY, ops) == Market(
      map[], map[], map[a.id := Moderated(a, reject)][b.id := b], map[b.submission.slug := b.id])
  {
    SlugTaken(EMPTY, [], a);
    OneStep([] + [Submit(a)], Moderate(a.id, reject));
    var past := [] + [Submit(a)] + [Moderate(a.id, reject)];
    RejectedAtOnce(a, reject);
    SlugTaken(Market(map[], map[], map[a.id := Moderated(a, reject)], map[]), past, b);
    ops := past + [Submit(b)];
  }

  /** Then two can be live: ask the first one for changes. */
  lemma TwoLiveApplications(a: Application, b: Application, reject: Review, reopen: Review) returns (ops: seq<Op>)
    requires a.id != b.id && a.submission.slug == b.submission.slug
    requires a.status == b.status == Submitted && a.history == b.history == []
    requires IsModerator(reject) && IsModerator(reopen)
    requires reject.decision == Reject && reopen.decision == RequestChanges
    ensures !OneLive(Run(EMPTY, ops))
  {
    var past := SlugRetaken(a, b, reject);
    var again := Moderate(a.id, reopen);
    OneStep(past, again);
    ops := past + [again];
    var m, n := Run(EMPTY, past), Run(EMPTY, ops);
    assert n.applications == m.applications[a.id := Moderated(m.applications[a.id], reopen)];
    assert Claims(n, a.id, a.submission.slug) && Claims(n, b.id, a.submission.slug);
  }

  /** Or reject the first one again, which drops the second from the index, and submit a
      third. */
  lemma TwoLiveBySubmission(a: Application, b: Application, c: Application, reject: Review) returns (ops: seq<Op>)
    requires a.id != b.id && a.id != c.id && b.id != c.id
    requires a.submission.slug == b.submission.slug == c.submission.slug
    requires a.status == b.status == c.status == Submitted && a.history == b.history == c.history == []
    requires IsModerator(reject) && reject.decision == Reject
    ensures !OneLive(Run(EMPTY, ops))
  {
    var past := SlugRetaken(a, b, reject);
    var again := Moderate(a.id, reject);
    OneStep(past, again);
    var m, n := Run(EMPTY, past), Run(EMPTY, past + [again]);
    assert n.bySlug == map[] && n.applicationBySlug == map[];
    assert n.applications == m.applications[a.id := Moderated(m.applications[a.id], reject)];
    SlugTaken(n, past + [again], c);
    ops := past + [again] + [Submit(c)];
    var e := Run(EMPTY, ops);
    assert Claims(e, b.id, b.submission.slug) && Claims(e, c.id, b.submission.slug);
  }
}
