/** Invitations into an organization, users and provider memberships. */
module InvitationStore {
  import opened Roles
  import opened Wrappers

  type Id = nat
  type Instant = int

  const WEEK_MS := 604_800_000

  datatype Status = Pending | Accepted | Declined | Cancelled | Revoked | Expired
  datatype AccountStatus = PendingInvite | PendingApproval | Active | Suspended | Deactivated

  datatype Invitation = Invitation(email: Option<string>, phone: Option<string>, role: Role, organizationId: Option<Id>,
                                   status: Status, expiresAt: Option<Instant>, acceptedBy: Option<Id>)

  datatype User = User(email: Option<string>, phone: Option<string>, role: Role, organizationId: Option<Id>,
                       account: AccountStatus)

  datatype Membership = Membership(active: bool, isPrimary: bool)

  /** Memberships are keyed by provider and organization. */
  datatype Db = Db(invitations: map<Id, Invitation>, users: map<Id, User>, memberships: map<(Id, Id), Membership>)

  predicate Given(s: Option<string>) { s.Some? && s.value != "" }

  /** Both are given and equal. */
  predicate Shares(a: Option<string>, b: Option<string>) { Given(a) && a == b }

  /** The row the duplicate check of inviteUser looks for. */
  predicate Duplicate(i: Invitation, email: Option<string>, phone: Option<string>, role: Role, org: Option<Id>, now: Instant) {
    && i.status == Pending && i.organizationId == org && i.role == role
    && (Shares(email, i.email) || Shares(phone, i.phone)) && i.expiresAt.Some? && i.expiresAt.value > now
  }

  predicate AnyDuplicate(db: Db, email: Option<string>, phone: Option<string>, role: Role, org: Option<Id>, now: Instant) {
    exists i :: i in db.invitations && Duplicate(db.invitations[i], email, phone, role, org, now)
  }

  predicate ExpiredAt(i: Invitation, now: Instant) { i.expiresAt.Some? && i.expiresAt.value <= now }

  predicate Invitable(actor: User, role: Role) {
    !IsGovernance(role) && role != SuperAdmin && (actor.role == SuperAdmin || role != OrgAdmin)
  }

  /** resolveInvitationOrganization: a super administrator may name another organization than the own. */
  predicate HasOrganization(actor: User) {
    actor.role == SuperAdmin || actor.organizationId.Some?
  }

  function OrganizationOf(actor: User, requested: Option<Id>): Option<Id> {
    if actor.role == SuperAdmin && requested.Some? then requested else actor.organizationId
  }

  /** inviteUser; `passes` says whether the membership, confirmation and quota checks let it through,
      `checked` and `created` are the times of the duplicate check and of the new row. */
  function Invite(db: Db, actor: Id, email: Option<string>, phone: Option<string>, role: Role, requested: Option<Id>,
                  passes: bool, id: Id, checked: Instant, created: Instant): Db
  {
    if actor !in db.users || !Invitable(db.users[actor], role) || !HasOrganization(db.users[actor])
       || (!Given(email) && !Given(phone)) || !passes then db
    else
      var org := OrganizationOf(db.users[actor], requested);
      if AnyDuplicate(db, email, phone, role, org, checked) then db
      else db.(invitations := db.invitations[id :=
        Invitation(email, phone, role, org, Pending, Some(created + WEEK_MS), None)])
  }

  /** buildInvitationScope: a super administrator sees all, an organization's administrator its own. */
  predicate InScope(actor: User, i: Invitation) {
    actor.role == SuperAdmin || (actor.role == OrgAdmin && actor.organizationId.Some? && i.organizationId == actor.organizationId)
  }

  function SetStatus(db: Db, i: Id, s: Status): Db
    requires i in db.invitations
  {
    db.(invitations := db.invitations[i := db.invitations[i].(status := s)])
  }

  /** cancelInvitation and revokeInvitation */
  function Cancel(db: Db, actor: Id, i: Id, revoke: bool): Db {
    if actor !in db.users || i !in db.invitations || !InScope(db.users[actor], db.invitations[i])
       || db.invitations[i].status != Pending then db
    else SetStatus(db, i, if revoke then Revoked else Cancelled)
  }

  /** resendInvitation: it prolongs nothing, and closes an invitation that has run out. */
  function Resend(db: Db, actor: Id, i: Id, now: Instant): Db {
    if actor !in db.users || i !in db.invitations || !InScope(db.users[actor], db.invitations[i])
       || db.invitations[i].status != Pending || !ExpiredAt(db.invitations[i], now) then db
    else SetStatus(db, i, Expired)
  }

  /** assertInviteeMatches; `lower` is `toLowerCase`. */
  predicate IsInvitee(lower: string -> string, i: Invitation, u: User) {
    || (Given(i.email) && Given(u.email) && lower(i.email.value) == lower(u.email.value))
    || (Given(i.phone) && Given(u.phone) && i.phone == u.phone)
  }

  /** Which pending rows getMyInvitations finds: those sent to the user's address or number. */
  predicate SentTo(i: Invitation, email: Option<string>, phone: Option<string>) {
    i.status == Pending && (Shares(email, i.email) || Shares(phone, i.phone))
  }

  function Swept(i: Invitation, email: Option<string>, phone: Option<string>, now: Instant): Invitation {
    if SentTo(i, email, phone) && ExpiredAt(i, now) then i.(status := Expired) else i
  }

  /** getMyInvitations closes the user's invitations that have run out. */
  function Sweep(db: Db, email: Option<string>, phone: Option<string>, now: Instant): Db {
    db.(invitations := map i | i in db.invitations :: Swept(db.invitations[i], email, phone, now))
  }

  /** A provider who joins another organization keeps role and organization and only gains a membership. */
  predicate MembershipOnly(u: User, i: Invitation) {
    u.role == Provider && i.role == Provider && i.organizationId.Some? && u.organizationId != i.organizationId
  }

  function AcceptedUser(u: User, i: Invitation): User {
    u.(account := if u.account == Suspended then Suspended else Active,
       organizationId := if i.organizationId.Some? && !MembershipOnly(u, i) then i.organizationId else u.organizationId,
       role := if u.role != SuperAdmin && !MembershipOnly(u, i) then i.role else u.role)
  }

  /** acceptInvitation: checks at `now`, transaction at `later`. */
  function Accept(lower: string -> string, db: Db, u: Id, i: Id, now: Instant, later: Instant): Db {
    if u !in db.users || i !in db.invitations || !IsInvitee(lower, db.invitations[i], db.users[u])
       || db.invitations[i].status != Pending then db
    else if ExpiredAt(db.invitations[i], now) then SetStatus(db, i, Expired)
    else if ExpiredAt(db.invitations[i], later) then db
    else
      var inv, user := db.invitations[i], db.users[u];
      Db(db.invitations[i := inv.(status := Accepted, acceptedBy := Some(u))],
         db.users[u := AcceptedUser(user, inv)],
         if inv.role == Provider && inv.organizationId.Some?
         then db.memberships[(u, inv.organizationId.value) := Membership(true, user.organizationId == inv.organizationId)]
         else db.memberships)
  }

  /** declineInvitation */
  function Decline(lower: string -> string, db: Db, u: Id, i: Id, now: Instant): Db {
    if u !in db.users || i !in db.invitations || !IsInvitee(lower, db.invitations[i], db.users[u])
       || db.invitations[i].status != Pending then db
    else SetStatus(db, i, if ExpiredAt(db.invitations[i], now) then Expired else Declined)
  }
}
