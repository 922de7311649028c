/** Internal administrators: roles, invitations, role assignments and approval requests. */
module InternalAdminStore {
  import opened Roles
  import opened Wrappers

  type Id = nat
  type Instant = int

  datatype Permission =
    | AdminRead | AdminInvite | AdminAssignRole | AdminChangeScope | AdminSuspend | AdminRevokeSessions | AdminViewAudit
    | OrganizationReview | OrganizationManage | ProviderReview | ProviderManage | ReportOperations
    | SupportAccountAssistance | ComplianceAuditRead | InvestigationManage | AssetIntelligenceManage
    | SecuritySessionManage | ReleaseReadinessManage | BackupVerify | BackupRestoreRequest | PaymentPlanRead
    | PaymentPlanManage | PaymentTransactionRead | PaymentReconciliationManage | PaymentRefundRequest
    | PaymentRefundApprove | PaymentConfigurationManage

  datatype Feature = Investigation | AssetIntelligence

  datatype RoleDefinition = RoleDefinition(role: Role, permissions: set<Permission>, highRisk: bool, needs: Option<Feature>)

  function AllPermissions(): set<Permission> {
    { AdminRead, AdminInvite, AdminAssignRole, AdminChangeScope, AdminSuspend, AdminRevokeSessions, AdminViewAudit,
      OrganizationReview, OrganizationManage, ProviderReview, ProviderManage, ReportOperations,
      SupportAccountAssistance, ComplianceAuditRead, InvestigationManage, AssetIntelligenceManage,
      SecuritySessionManage, ReleaseReadinessManage, BackupVerify, BackupRestoreRequest, PaymentPlanRead,
      PaymentPlanManage, PaymentTransactionRead, PaymentReconciliationManage, PaymentRefundRequest,
      PaymentRefundApprove, PaymentConfigurationManage }
  }

  function Catalog(): seq<RoleDefinition> {
    [ RoleDefinition(PlatformSuperAdmin, AllPermissions(), true, None),
      RoleDefinition(OperationsAdmin, {ReportOperations, OrganizationReview}, false, None),
      RoleDefinition(OrganizationOnboardingAdmin, {OrganizationReview, OrganizationManage}, false, None),
      RoleDefinition(ProviderAdmin, {ProviderReview, ProviderManage}, false, None),
      RoleDefinition(FinanceBillingAdmin,
                     {PaymentPlanRead, PaymentTransactionRead, PaymentReconciliationManage, PaymentRefundRequest}, false, None),
      RoleDefinition(SupportAdmin, {SupportAccountAssistance, AdminRead}, false, None),
      RoleDefinition(ComplianceAuditAdmin, {ComplianceAuditRead, AdminViewAudit}, false, None),
      RoleDefinition(SecurityAdmin, {SecuritySessionManage, AdminRevokeSessions, AdminViewAudit}, false, None),
      RoleDefinition(InvestigationAdmin, {InvestigationManage}, false, Some(Investigation)),
      RoleDefinition(AssetIntelligenceAdmin, {AssetIntelligenceManage}, false, Some(AssetIntelligence)),
      RoleDefinition(ReleaseOperationsAdmin, {ReleaseReadinessManage, BackupVerify}, false, None),
      RoleDefinition(BackupRecoveryAdmin, {BackupVerify, BackupRestoreRequest}, false, None)]
  }

  /** The catalog and the enterprise features that the environment enables. */
  datatype Config = Config(catalog: seq<RoleDefinition>, features: set<Feature>)

  function Find(catalog: seq<RoleDefinition>, role: Role): (r: Option<RoleDefinition>)
    ensures r.Some? ==> r.value in catalog && r.value.role == role
    ensures r.None? ==> forall d :: d in catalog ==> d.role != role
  {
    if catalog == [] then None else if catalog[0].role == role then Some(catalog[0]) else Find(catalog[1..], role)
  }

  /** requireEnabledRole, None where it throws. */
  function EnabledRole(c: Config, role: Role): (r: Option<RoleDefinition>)
    ensures r.Some? ==> r.value in c.catalog && r.value.role == role
  {
    var d := Find(c.catalog, role);
    if d.None? || (d.value.needs.Some? && d.value.needs.value !in c.features) then None else d
  }

  /** permissionsForRole */
  function RolePermissions(c: Config, role: Role): set<Permission> {
    if role == SuperAdmin then AllPermissions()
    else
      var d := EnabledRole(c, role);
      if d.None? then {} else d.value.permissions
  }

  /** assertGrantCeiling passes. */
  predicate WithinCeiling(c: Config, role: Role, requested: set<Permission>) {
    IsSuper(role) || requested <= RolePermissions(c, role)
  }

  datatype AccountStatus = Active | Suspended | OtherStatus

  datatype User = User(role: Role, status: AccountStatus, organizationId: Option<Id>, email: Option<string>)

  datatype InvitationStatus = Pending | Accepted | Expired | Closed

  datatype Invitation = Invitation(email: string, role: Role, status: InvitationStatus, invitedBy: Id,
                                   organizationId: Option<Id>, expiresAt: Instant)

  datatype Assignment = Assignment(userId: Id, role: Role, active: bool, permissions: set<Permission>,
                                   assignedBy: Id, organizationId: Option<Id>, startsAt: Instant, expiresAt: Option<Instant>)

  datatype Operation =
    | SuperAdminGrant | RoleDefinitionChange | ProductionRestore | FeatureEnablement | PaymentConfiguration | HighValueRefund

  datatype ApprovalStatus = AwaitingDecision | ExecutionBlocked | Rejected

  datatype Approval = Approval(operation: Operation, status: ApprovalStatus, requester: Id, approver: Option<Id>,
                               requestedRole: Option<Role>, executionBlocked: bool)

  datatype Db = Db(users: map<Id, User>, invitations: map<Id, Invitation>, assignments: map<Id, Assignment>,
                   approvals: map<Id, Approval>)

  function PermissionFor(o: Operation): Permission {
    match o
    case SuperAdminGrant => AdminAssignRole
    case RoleDefinitionChange => AdminAssignRole
    case ProductionRestore => BackupRestoreRequest
    case FeatureEnablement => ReleaseReadinessManage
    case PaymentConfiguration => PaymentConfigurationManage
    case HighValueRefund => PaymentRefundApprove
  }

  predicate InForce(a: Assignment, now: Instant) {
    a.active && a.startsAt <= now && (a.expiresAt.None? || a.expiresAt.value > now)
  }

  /** hasPermission without an organization: by the role or by an assignment in force. */
  predicate MayDo(c: Config, db: Db, u: Id, p: Permission, now: Instant) {
    && u in db.users && db.users[u].status != Suspended
    && (p in RolePermissions(c, db.users[u].role)
        || exists a :: a in db.assignments && db.assignments[a].userId == u && InForce(db.assignments[a], now)
                       && p in db.assignments[a].permissions)
  }

  /** resolveScope: an actor of an organization cannot name another one. */
  predicate ScopeAllowed(user: User, organizationId: Option<Id>) {
    user.organizationId.Some? && organizationId.Some? ==> organizationId == user.organizationId
  }

  function ScopeOf(user: User, organizationId: Option<Id>): Option<Id> {
    if organizationId.Some? then organizationId else user.organizationId
  }

  /** createApprovalRequest under the id `id` */
  function RequestApproval(c: Config, db: Db, actor: Id, o: Operation, role: Option<Role>, id: Id, now: Instant): Db {
    if !MayDo(c, db, actor, PermissionFor(o), now) then db
    else db.(approvals := db.approvals[id := Approval(o, AwaitingDecision, actor, None, role, true)])
  }

  /** What inviteAdministrator and assignRole check first. */
  predicate MayGrant(c: Config, db: Db, actor: Id, p: Permission, role: Role, now: Instant) {
    && MayDo(c, db, actor, p, now) && EnabledRole(c, role).Some?
    && WithinCeiling(c, db.users[actor].role, EnabledRole(c, role).value.permissions)
  }

  /** inviteAdministrator */
  function Invite(c: Config, db: Db, actor: Id, email: string, role: Role, org: Option<Id>, expiresAt: Instant, id: Id, now: Instant): Db {
    if !MayGrant(c, db, actor, AdminInvite, role, now) then db
    else if EnabledRole(c, role).value.highRisk then RequestApproval(c, db, actor, SuperAdminGrant, Some(role), id, now)
    else if exists u :: u in db.users && db.users[u].email == Some(email) then db
    else if exists i :: i in db.invitations && SameInvitation(db.invitations[i], email, role) then db
    else if !ScopeAllowed(db.users[actor], org) then db
    else db.(invitations := db.invitations[id :=
      Invitation(email, role, Pending, actor, ScopeOf(db.users[actor], org), expiresAt)])
  }

  predicate SameInvitation(i: Invitation, email: string, role: Role) {
    i.email == email && i.status == Pending && i.role == role
  }

  /** The invitation is for the signed-in user, unless one of the two has no address; `lower` is
      `toLowerCase`. */
  predicate Addressed(lower: string -> string, inv: Invitation, user: User) {
    inv.email != "" && user.email.Some? && user.email.value != "" ==> lower(inv.email) == lower(user.email.value)
  }

  /** The checks of acceptInvitation pass. */
  predicate MayAccept(c: Config, lower: string -> string, db: Db, actor: Id, i: Id, now: Instant) {
    && i in db.invitations && actor in db.users
    && db.invitations[i].status == Pending && db.invitations[i].expiresAt > now
    && Addressed(lower, db.invitations[i], db.users[actor]) && EnabledRole(c, db.invitations[i].role).Some?
  }

  /** The user after accepting: the invitation's role replaces the own, and the account is active. */
  function Joined(user: User, inv: Invitation): User {
    user.(role := inv.role, status := Active, organizationId := ScopeOf(user, inv.organizationId))
  }

  /** acceptInvitation by the signed-in user `actor` */
  function Accept(c: Config, lower: string -> string, db: Db, actor: Id, i: Id, id: Id, now: Instant): Db {
    if MayAccept(c, lower, db, actor, i, now) then
      var inv := db.invitations[i];
      db.(users := db.users[actor := Joined(db.users[actor], inv)],
          assignments := db.assignments[id := Assignment(actor, inv.role, true, EnabledRole(c, inv.role).value.permissions,
                                                         inv.invitedBy, inv.organizationId, now, Some(inv.expiresAt))],
          invitations := db.invitations[i := inv.(status := Accepted)])
    else if i in db.invitations && db.invitations[i].status == Pending && db.invitations[i].expiresAt <= now
    then db.(invitations := db.invitations[i := db.invitations[i].(status := Expired)])
    else db
  }

  /** assignRole */
  function Assign(c: Config, db: Db, actor: Id, target: Id, role: Role, org: Option<Id>, startsAt: Instant,
                  expiresAt: Option<Instant>, id: Id, now: Instant): Db
  {
    if actor == target || !MayGrant(c, db, actor, AdminAssignRole, role, now) then db
    else if EnabledRole(c, role).value.highRisk then RequestApproval(c, db, actor, SuperAdminGrant, Some(role), id, now)
    else if target !in db.users || !ScopeAllowed(db.users[actor], org) then db
    else db.(assignments := db.assignments[id :=
      Assignment(target, role, true, EnabledRole(c, role).value.permissions, actor, ScopeOf(db.users[actor], org),
                 startsAt, expiresAt)])
  }

  predicate IsActiveSuper(u: User) { u.status == Active && IsSuper(u.role) }

  /** assertNotFinalActiveSuperAdmin passes. */
  predicate AnotherSuper(db: Db, target: Id) {
    exists u :: u in db.users && u != target && IsActiveSuper(db.users[u])
  }

  /** removeRole */
  function RemoveRole(c: Config, db: Db, actor: Id, a: Id, now: Instant): Db {
    if !MayDo(c, db, actor, AdminAssignRole, now) || a !in db.assignments then db
    else if IsSuper(db.assignments[a].role) && !AnotherSuper(db, db.assignments[a].userId) then db
    else db.(assignments := db.assignments[a := db.assignments[a].(active := false)])
  }

  /** suspendAdministrator */
  function Suspend(c: Config, db: Db, actor: Id, target: Id, now: Instant): Db {
    if !MayDo(c, db, actor, AdminSuspend, now) || actor == target || !AnotherSuper(db, target) || target !in db.users then db
    else db.(users := db.users[target := db.users[target].(status := Suspended)])
  }

  /** reactivateAdministrator */
  function Reactivate(c: Config, db: Db, actor: Id, target: Id, now: Instant): Db {
    if !MayDo(c, db, actor, AdminSuspend, now) || target !in db.users then db
    else db.(users := db.users[target := db.users[target].(status := Active)])
  }

  /** decideApprovalRequest: even an approval only records that execution stays blocked. */
  function Decide(c: Config, db: Db, actor: Id, r: Id, approve: bool, now: Instant): Db {
    if r !in db.approvals || db.approvals[r].requester == actor
       || !MayDo(c, db, actor, PermissionFor(db.approvals[r].operation), now) then db
    else db.(approvals := db.approvals[r := db.approvals[r].(status := if approve then ExecutionBlocked else Rejected,
                                                             approver := Some(actor), executionBlocked := true)])
  }
}
