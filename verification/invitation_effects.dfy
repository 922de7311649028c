/** What each invitation operation does, and when: told from the rows and from the run that led there. */
module InvitationEffects {
  import opened InvitationSafety
  import opened InvitationStore
  import opened Roles
  import opened Wrappers

  // ---------- inviting ----------

  /** The roles that governance administration hands out. */
  predicate Governed(role: Role) {
    || role == PlatformOwner || role == ExecutiveSuperAdmin || role == TechnicalAdmin || role == BillingAdmin
    || role == LegalAdmin || role == AssignmentAdmin || role == AssetAdmin || role == ComplianceAdmin
    || role == RegulatoryAdmin || role == SupportAdmin
  }

  /** Both texts are there, not empty and equal. */
  predicate SameContact(a: Option<string>, b: Option<string>) {
    a.Some? && b.Some? && a.value == b.value && a.value != ""
  }

  /** A pending invitation of the organization and role to one of the contacts that has not run out. */
  predicate Rivals(i: Invitation, email: Option<string>, phone: Option<string>, role: Role, org: Option<Id>, now: Instant) {
    && i.status == Pending && i.organizationId == org && i.role == role
    && (SameContact(i.email, email) || SameContact(i.phone, phone)) && i.expiresAt.Some? && now < i.expiresAt.value
  }

  /** The actor may invite into the role. */
  predicate MayOffer(actor: User, role: Role) {
    && role != SuperAdmin && !Governed(role) && (role == OrgAdmin ==> actor.role == SuperAdmin)
    && (actor.role == SuperAdmin || actor.organizationId.Some?)
  }

  lemma OfferIs(actor: User, role: Role)
    ensures MayOffer(actor, role) <==> Invitable(actor, role) && HasOrganization(actor)
  {
  }

  lemma RivalIs(i: Invitation, email: Option<string>, phone: Option<string>, role: Role, org: Option<Id>, now: Instant)
    ensures Rivals(i, email, phone, role, org, now) <==> Duplicate(i, email, phone, role, org, now)
  {
  }

  predicate AnyRival(rows: map<Id, Invitation>, email: Option<string>, phone: Option<string>, role: Role, org: Option<Id>,
                     now: Instant)
  {
    exists i :: i in rows && Rivals(rows[i], email, phone, role, org, now)
  }

  lemma RivalsAreDuplicates(db: Db, email: Option<string>, phone: Option<string>, role: Role, org: Option<Id>, now: Instant)
    ensures AnyRival(db.invitations, email, phone, role, org, now) == AnyDuplicate(db, email, phone, role, org, now)
  {
    if AnyRival(db.invitations, email, phone, role, org, now) {
      var i :| i in db.invitations && Rivals(db.invitations[i], email, phone, role, org, now);
      RivalIs(db.invitations[i], email, phone, role, org, now);
    }
    if AnyDuplicate(db, email, phone, role, org, now) {
      var i :| i in db.invitations && Duplicate(db.invitations[i], email, phone, role, org, now);
      RivalIs(db.invitations[i], email, phone, role, org, now);
    }
  }

  /** An invitation is created if and only if the actor may offer the role, a contact is given, the other
      checks pass, and no live invitation has the same target. It runs for seven days. */
  lemma InvitesExactly(db: Db, actor: Id, email: Option<string>, phone: Option<string>, role: Role, requested: Option<Id>,
                       passes: bool, id: Id, checked: Instant, created: Instant, org: Option<Id>)
    requires id !in db.invitations && actor in db.users
    requires org == if db.users[actor].role == SuperAdmin && requested.Some? then requested else db.users[actor].organizationId
    ensures Invite(db, actor, email, phone, role, requested, passes, id, checked, created) ==
      if MayOffer(db.users[actor], role) && (SameContact(email, email) || SameContact(phone, phone)) && passes
         && !AnyRival(db.invitations, email, phone, role, org, checked)
      then db.(invitations := db.invitations[id :=
             Invitation(email, phone, role, org, Pending, Some(created + 7 * 24 * 60 * 60 * 1000), None)])
      else db
  {
    OfferIs(db.users[actor], role);
    RivalsAreDuplicates(db, email, phone, role, org, checked);
  }

  /** Step `k` of the run created invitation `i`. */
  predicate Sent(lower: string -> string, db: Db, steps: seq<Step>, k: nat, i: Id) {
    && k < |steps| && steps[k].DoInvite? && steps[k].id == i
    && i in After(lower, db, steps[..k + 1]).invitations && i !in After(lower, db, steps[..k]).invitations
  }

  /** Contacts, role and expiry of an invitation are those of the step that created it, in every later state. */
  lemma {:induction false} RowOfStep(lower: string -> string, db: Db, steps: seq<Step>, k: nat, i: Id)
    requires Possible(lower, db, steps) && Sent(lower, db, steps, k, i)
    ensures i in After(lower, db, steps).invitations
    ensures var row, s := After(lower, db, steps).invitations[i], steps[k];
      row.email == s.email && row.phone == s.phone && row.role == s.role && row.expiresAt == Some(s.later + 604_800_000)
  {
    assert steps[..k + 1][..k] == steps[..k];
    assert After(lower, db, steps[..k + 1]) == Apply(lower, After(lower, db, steps[..k]), steps[k]);
    ResolvedIsFinal(lower, db, steps, k + 1);
  }

  lemma OnlyInvitesCreate(lower: string -> string, db: Db, s: Step, i: Id)
    requires i in Apply(lower, db, s).invitations && i !in db.invitations
    ensures s.DoInvite? && s.id == i
  {
    if !s.DoInvite? { StepOpensNone(lower, db, s); }
  }

  lemma {:induction false} StepOfRow(lower: string -> string, db: Db, steps: seq<Step>, i: Id) returns (k: nat)
    requires db.invitations == map[] && i in After(lower, db, steps).invitations
    ensures Sent(lower, db, steps, k, i)
    decreases |steps|
  {
    var n := |steps| - 1;
    assert steps[..n + 1] == steps;
    var before := After(lower, db, steps[..n]);
    if i in before.invitations {
      k := StepOfRow(lower, db, steps[..n], i);
      assert steps[..n][..k] == steps[..k] && steps[..n][..k + 1] == steps[..k + 1];
    } else {
      OnlyInvitesCreate(lower, before, steps[n], i);
      k := n;
    }
  }

  // ---------- accepting ----------

  /** The user has the address, letter case aside, or the number that the step invited. */
  predicate Invited(lower: string -> string, s: Step, user: User) {
    s.DoInvite?
    && ((s.email.Some? && user.email.Some? && s.email.value != "" && user.email.value != "" && lower(s.email.value) == lower(user.email.value))
        || SameContact(s.phone, user.phone))
  }

  /** The step invited the user less than seven days before the answer, and the invitation is still pending. */
  predicate Waits(lower: string -> string, now: Db, s: Step, u: Id, i: Id, later: Instant) {
    && u in now.users && Invited(lower, s, now.users[u]) && later < s.later + 604_800_000
    && i in now.invitations && now.invitations[i].status == Pending
  }

  /** Step `k` created the invitation, which waits for the user's answer. */
  ghost predicate Answerable(lower: string -> string, db: Db, steps: seq<Step>, u: Id, i: Id, k: nat, later: Instant) {
    Sent(lower, db, steps, k, i) && Waits(lower, After(lower, db, steps), steps[k], u, i, later)
  }

  predicate IsAccepted(db: Db, i: Id) {
    i in db.invitations && db.invitations[i].status == Accepted
  }

  ghost predicate Becomes(lower: string -> string, s: Db, u: Id, i: Id, now: Instant, later: Instant) {
    !IsAccepted(s, i) && IsAccepted(Apply(lower, s, DoAccept(u, i, now, later)), i)
  }

  /** An invitation becomes accepted if and only if some step of the run invited the user less than seven
      days ago and it is still pending. */
  lemma AcceptsExactly(lower: string -> string, db: Db, steps: seq<Step>, u: Id, i: Id, now: Instant, later: Instant)
    requires db.invitations == map[] && Possible(lower, db, steps) && now <= later
    ensures Becomes(lower, After(lower, db, steps), u, i, now, later) <==>
      exists k: nat :: Answerable(lower, db, steps, u, i, k, later)
  {
    if Becomes(lower, After(lower, db, steps), u, i, now, later) {
      var k := AcceptedWasSent(lower, db, steps, u, i, now, later);
      assert Answerable(lower, db, steps, u, i, k, later);
    }
    if k: nat :| Answerable(lower, db, steps, u, i, k, later) {
      SentIsAccepted(lower, db, steps, u, i, k, now, later, After(lower, db, steps), steps[k]);
    }
  }

  lemma AcceptedWasSent(lower: string -> string, db: Db, steps: seq<Step>, u: Id, i: Id, now: Instant, later: Instant)
    returns (k: nat)
    requires db.invitations == map[] && Possible(lower, db, steps) && now <= later
    requires Becomes(lower, After(lower, db, steps), u, i, now, later)
    ensures Answerable(lower, db, steps, u, i, k, later)
  {
    k := StepOfRow(lower, db, steps, i);
    RowOfStep(lower, db, steps, k, i);
    AnswerIs(lower, After(lower, db, steps), steps[k], u, i, now, later);
  }

  lemma SentIsAccepted(lower: string -> string, db: Db, steps: seq<Step>, u: Id, i: Id, k: nat, now: Instant, later: Instant,
                       s: Db, step: Step)
    requires Possible(lower, db, steps) && now <= later && Sent(lower, db, steps, k, i)
    requires s == After(lower, db, steps) && step == steps[k] && Waits(lower, s, step, u, i, later)
    ensures Becomes(lower, s, u, i, now, later)
  {
    RowOfStep(lower, db, steps, k, i);
    WaitingIsAccepted(lower, s, step, u, i, now, later);
  }

  lemma WaitingIsAccepted(lower: string -> string, db: Db, s: Step, u: Id, i: Id, now: Instant, later: Instant)
    requires s.DoInvite? && i in db.invitations && now <= later
    requires db.invitations[i].email == s.email && db.invitations[i].phone == s.phone
    requires db.invitations[i].expiresAt == Some(s.later + 604_800_000)
    requires Waits(lower, db, s, u, i, later)
    ensures Becomes(lower, db, u, i, now, later)
  {
  }

  lemma AnswerIs(lower: string -> string, db: Db, s: Step, u: Id, i: Id, now: Instant, later: Instant)
    requires s.DoInvite? && i in db.invitations && now <= later
    requires db.invitations[i].email == s.email && db.invitations[i].phone == s.phone
    requires db.invitations[i].expiresAt == Some(s.later + 604_800_000)
    ensures Becomes(lower, db, u, i, now, later) <==> Waits(lower, db, s, u, i, later)
  {
  }

  /** A provider is invited as a provider into another organization than the own. */
  predicate JoinsBeside(user: User, inv: Invitation) {
    user.role == Provider && inv.role == Provider && inv.organizationId.Some? && user.organizationId != inv.organizationId
  }

  /** What accepting does: the user gets the invitation's role, unless a SUPER_ADMIN, and its organization,
      unless a provider who joins another one; a provider's membership is active, and primary exactly in the
      own organization; nobody else changes. */
  lemma AcceptanceWrites(lower: string -> string, db: Db, u: Id, i: Id, now: Instant, later: Instant)
    requires Becomes(lower, db, u, i, now, later)
    ensures var next := Apply(lower, db, DoAccept(u, i, now, later));
      && i in db.invitations && u in db.users && u in next.users && next.users == db.users[u := next.users[u]]
      && next.invitations == db.invitations[i := db.invitations[i].(status := Accepted, acceptedBy := Some(u))]
      && var inv, a, b := db.invitations[i], db.users[u], next.users[u];
      && b == a.(role := b.role, organizationId := b.organizationId, account := b.account)
      && b.role == (if a.role == SuperAdmin then SuperAdmin else inv.role)
      && b.account == (if a.account == Suspended then Suspended else Active)
      && b.organizationId == (if inv.organizationId.None? || JoinsBeside(a, inv) then a.organizationId else inv.organizationId)
      && next.memberships == if inv.role != Provider || inv.organizationId.None? then db.memberships
                             else db.memberships[(u, inv.organizationId.value) :=
                               Membership(true, a.organizationId == inv.organizationId)]
  {
  }

  // ---------- closing ----------

  /** The actor is a super administrator, or administers the invitation's organization. */
  predicate Administers(user: User, i: Invitation) {
    user.role == SuperAdmin || (user.role == OrgAdmin && user.organizationId.Some? && user.organizationId == i.organizationId)
  }

  function Closing(db: Db, i: Id, s: Status): Db
    requires i in db.invitations
  {
    db.(invitations := db.invitations[i := db.invitations[i].(status := s)])
  }

  /** Cancelling and revoking close a pending invitation if and only if the actor administers it. */
  lemma CancelsExactly(db: Db, actor: Id, i: Id, revoke: bool)
    requires actor in db.users && i in db.invitations
    ensures Cancel(db, actor, i, revoke) ==
      if db.invitations[i].status == Pending && Administers(db.users[actor], db.invitations[i])
      then Closing(db, i, if revoke then Revoked else Cancelled) else db
  {
  }

  /** Declining closes a pending invitation of the user: as declined, or as expired when it has run out. */
  lemma DeclinesExactly(lower: string -> string, db: Db, steps: seq<Step>, u: Id, i: Id, k: nat, now: Instant)
    requires Possible(lower, db, steps) && Sent(lower, db, steps, k, i) && u in After(lower, db, steps).users
    ensures i in After(lower, db, steps).invitations
    ensures var s := After(lower, db, steps);
      Decline(lower, s, u, i, now) ==
        if s.invitations[i].status == Pending && Invited(lower, steps[k], s.users[u])
        then Closing(s, i, if now < steps[k].later + 604_800_000 then Declined else Expired) else s
  {
    RowOfStep(lower, db, steps, k, i);
  }

  /** Sending again closes a pending invitation of the actor's that has run out, and else changes nothing. */
  lemma ResendsExactly(db: Db, actor: Id, i: Id, now: Instant)
    requires actor in db.users && i in db.invitations
    ensures Resend(db, actor, i, now) ==
      if db.invitations[i].status == Pending && Administers(db.users[actor], db.invitations[i])
         && db.invitations[i].expiresAt.Some? && db.invitations[i].expiresAt.value <= now
      then Closing(db, i, Expired) else db
  {
  }

  /** Listing closes exactly the pending invitations to the user's contacts that have run out. */
  lemma SweepsExactly(db: Db, email: Option<string>, phone: Option<string>, now: Instant, i: Id)
    requires i in db.invitations
    ensures var next := Sweep(db, email, phone, now);
      && next.invitations.Keys == db.invitations.Keys && next == db.(invitations := next.invitations)
      && var row := db.invitations[i];
      next.invitations[i] ==
        if row.status == Pending && (SameContact(row.email, email) || SameContact(row.phone, phone))
           && row.expiresAt.Some? && row.expiresAt.value <= now
        then row.(status := Expired) else row
  {
  }
}
