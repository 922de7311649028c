/** What each operation of internal administration does, told by who may do what at which time. */
module InternalAdminEffects {
  import opened InternalAdminSafety
  import opened InternalAdminStore
  import opened Roles
  import opened Wrappers

  // ---------- permissions ----------

  lemma EveryPermission(p: Permission)
    ensures p in AllPermissions()
  {
  }

  predicate OneEach(catalog: seq<RoleDefinition>) {
    forall i, j :: 0 <= i < j < |catalog| ==> catalog[i].role != catalog[j].role
  }

  lemma CatalogHasOneEach()
    ensures OneEach(Catalog())
  {
  }

  /** The catalog defines the role, and the environment enables what it needs. */
  predicate Defines(c: Config, role: Role, d: RoleDefinition) {
    d in c.catalog && d.role == role && (d.needs.None? || d.needs.value in c.features)
  }

  lemma EnabledExactly(c: Config, role: Role, d: RoleDefinition)
    requires OneEach(c.catalog)
    ensures EnabledRole(c, role) == Some(d) <==> Defines(c, role, d)
  {
    var f := Find(c.catalog, role);
    if d in c.catalog && d.role == role {
      var i :| 0 <= i < |c.catalog| && c.catalog[i] == d;
      var j :| 0 <= j < |c.catalog| && c.catalog[j] == f.value;
      assert i == j;
    }
  }

  /** The role itself carries the permission. */
  ghost predicate ByRole(c: Config, role: Role, p: Permission) {
    role == SuperAdmin || exists d :: Defines(c, role, d) && p in d.permissions
  }

  /** The assignment carries the permission at time `t`. */
  predicate ByAssignment(a: Assignment, u: Id, p: Permission, t: Instant) {
    a.userId == u && a.active && p in a.permissions && a.startsAt <= t && (a.expiresAt.None? || t < a.expiresAt.value)
  }

  /** The user is not suspended, and the role or some assignment carries the permission. */
  ghost predicate Holds(c: Config, db: Db, u: Id, p: Permission, t: Instant) {
    && u in db.users && db.users[u].status != Suspended
    && (ByRole(c, db.users[u].role, p) || exists a :: a in db.assignments && ByAssignment(db.assignments[a], u, p, t))
  }

  lemma RolePermissionsExactly(c: Config, role: Role, p: Permission)
    requires OneEach(c.catalog)
    ensures p in RolePermissions(c, role) <==> ByRole(c, role, p)
  {
    EveryPermission(p);
    if EnabledRole(c, role).Some? { EnabledExactly(c, role, EnabledRole(c, role).value); }
    if d :| Defines(c, role, d) && p in d.permissions { EnabledExactly(c, role, d); }
  }

  /** hasPermission is that. */
  lemma MayDoExactly(c: Config, db: Db, u: Id, p: Permission, t: Instant)
    requires OneEach(c.catalog)
    ensures MayDo(c, db, u, p, t) <==> Holds(c, db, u, p, t)
  {
    if u in db.users {
      RolePermissionsExactly(c, db.users[u].role, p);
      if a :| a in db.assignments && ByAssignment(db.assignments[a], u, p, t) {
        assert InForce(db.assignments[a], t);
      }
    }
  }

  /** Without assignments, who may request and decide the approval of an operation in the code's catalog. */
  lemma ApproversByRole(c: Config, db: Db, u: Id, o: Operation, t: Instant)
    requires c.catalog == Catalog() && u in db.users && db.users[u].status != Suspended && db.assignments == map[]
    ensures MayDo(c, db, u, PermissionFor(o), t) <==>
      var role := db.users[u].role;
      || IsSuper(role) || (o == ProductionRestore && role == BackupRecoveryAdmin)
      || (o == FeatureEnablement && role == ReleaseOperationsAdmin)
  {
    var role := db.users[u].role;
    EveryPermission(PermissionFor(o));
    assert MayDo(c, db, u, PermissionFor(o), t) <==> PermissionFor(o) in RolePermissions(c, role);
    CatalogRole(c, role, PermissionFor(o));
  }

  predicate Deciding(p: Permission) {
    || p == AdminAssignRole || p == BackupRestoreRequest || p == ReleaseReadinessManage || p == PaymentConfigurationManage
    || p == PaymentRefundApprove
  }

  lemma OtherEntries(i: nat, p: Permission)
    requires 1 <= i < 10 && Deciding(p)
    ensures p !in Catalog()[i].permissions
  {
  }

  lemma SpecialEntries()
    ensures var all := Catalog();
      && |all| == 12 && all[0].role == PlatformSuperAdmin && all[0].permissions == AllPermissions()
      && all[10].role == ReleaseOperationsAdmin && all[10].permissions == {ReleaseReadinessManage, BackupVerify}
      && all[11].role == BackupRecoveryAdmin && all[11].permissions == {BackupVerify, BackupRestoreRequest}
  {
  }

  /** Which entry of the code's catalog gives which of the permissions that approvals need. */
  lemma CatalogEntry(all: seq<RoleDefinition>, d: RoleDefinition, p: Permission)
    requires all == Catalog() && d in all && Deciding(p)
    ensures p in d.permissions <==>
      || d.role == PlatformSuperAdmin || (p == BackupRestoreRequest && d.role == BackupRecoveryAdmin)
      || (p == ReleaseReadinessManage && d.role == ReleaseOperationsAdmin)
  {
    EveryPermission(p);
    SpecialEntries();
    CatalogHasOneEach();
    var i :| 0 <= i < |all| && all[i] == d;
    if 1 <= i < 10 { OtherEntries(i, p); }
  }

  lemma CatalogAlways(role: Role) returns (d: RoleDefinition)
    requires role == PlatformSuperAdmin || role == BackupRecoveryAdmin || role == ReleaseOperationsAdmin
    ensures d in Catalog() && d.role == role && d.needs.None?
  {
    var i := if role == PlatformSuperAdmin then 0 else if role == BackupRecoveryAdmin then 11 else 10;
    d := Catalog()[i];
  }

  lemma CatalogRole(c: Config, role: Role, p: Permission)
    requires c.catalog == Catalog() && Deciding(p)
    ensures p in RolePermissions(c, role) <==>
      || IsSuper(role) || (p == BackupRestoreRequest && role == BackupRecoveryAdmin)
      || (p == ReleaseReadinessManage && role == ReleaseOperationsAdmin)
  {
    CatalogHasOneEach();
    RolePermissionsExactly(c, role, p);
    if d :| Defines(c, role, d) && p in d.permissions { CatalogEntry(c.catalog, d, p); }
    if role == PlatformSuperAdmin || role == BackupRecoveryAdmin || role == ReleaseOperationsAdmin {
      var d := CatalogAlways(role);
      assert Defines(c, role, d);
      CatalogEntry(c.catalog, d, p);
    }
  }

  // ---------- removing an assignment ----------

  predicate Another(db: Db, target: Id) {
    exists u :: u in db.users && u != target && db.users[u].status == Active
                && (db.users[u].role == SuperAdmin || db.users[u].role == PlatformSuperAdmin)
  }

  /** The actor may remove the assignment, which is not the last super administrator's. */
  ghost predicate Removable(c: Config, db: Db, actor: Id, a: Id, now: Instant) {
    && Holds(c, db, actor, AdminAssignRole, now) && a in db.assignments
    && (db.assignments[a].role == SuperAdmin || db.assignments[a].role == PlatformSuperAdmin ==>
      Another(db, db.assignments[a].userId))
  }

  /** After a removal everybody may do exactly what they might without the assignment; the other assignments
      and all users stay. Otherwise nothing changes. */
  lemma RemovalTakes(c: Config, db: Db, actor: Id, a: Id, now: Instant)
    requires OneEach(c.catalog)
    ensures var next := RemoveRole(c, db, actor, a, now);
      if Removable(c, db, actor, a, now) then
        && a in next.assignments && !next.assignments[a].active
        && next == db.(assignments := db.assignments[a := next.assignments[a]])
        && (forall t :: !InForce(next.assignments[a], t))
        && (forall u, p, t :: MayDo(c, next, u, p, t) <==> Holds(c, db.(assignments := db.assignments - {a}), u, p, t))
      else next == db
  {
    var next := RemoveRole(c, db, actor, a, now);
    MayDoExactly(c, db, actor, AdminAssignRole, now);
    if Removable(c, db, actor, a, now) {
      var without := db.(assignments := db.assignments - {a});
      forall u, p, t ensures MayDo(c, next, u, p, t) <==> Holds(c, without, u, p, t) {
        MayDoExactly(c, next, u, p, t);
        if x :| x in next.assignments && ByAssignment(next.assignments[x], u, p, t) {
          assert x in without.assignments && without.assignments[x] == next.assignments[x];
        }
        if x :| x in without.assignments && ByAssignment(without.assignments[x], u, p, t) {
          assert x in next.assignments && next.assignments[x] == without.assignments[x];
        }
      }
    }
  }

  lemma StepKeepsRemoved(c: Config, lower: string -> string, db: Db, s: Step, a: Id)
    requires a in db.assignments && !db.assignments[a].active && Fresh(db, s)
    ensures var next := Apply(c, lower, db, s); a in next.assignments && !next.assignments[a].active
  {
  }

  /** No continuation brings a removed assignment back into force. */
  lemma {:induction false} RemovedForGood(c: Config, lower: string -> string, db: Db, steps: seq<Step>, a: Id)
    requires a in db.assignments && !db.assignments[a].active && Possible(c, lower, db, steps)
    ensures var next := After(c, lower, db, steps).assignments; a in next && forall t :: !InForce(next[a], t)
    ensures !After(c, lower, db, steps).assignments[a].active
    decreases |steps|
  {
    if steps != [] {
      var n := |steps| - 1;
      PossiblePrefix(c, lower, db, steps);
      RemovedForGood(c, lower, db, steps[..n], a);
      StepKeepsRemoved(c, lower, After(c, lower, db, steps[..n]), steps[n], a);
    }
  }

  // ---------- suspending ----------

  ghost predicate Suspendable(c: Config, db: Db, actor: Id, target: Id, now: Instant) {
    Holds(c, db, actor, AdminSuspend, now) && actor != target && target in db.users && Another(db, target)
  }

  /** A suspension takes every permission from its target at any time and nothing from anybody else. */
  lemma SuspensionTakes(c: Config, db: Db, actor: Id, target: Id, now: Instant)
    requires OneEach(c.catalog)
    ensures var next := Suspend(c, db, actor, target, now);
      if Suspendable(c, db, actor, target, now) then
        && next == db.(users := db.users[target := db.users[target].(status := Suspended)])
        && (forall p, t :: !MayDo(c, next, target, p, t))
        && (forall u, p, t :: u != target ==> (MayDo(c, next, u, p, t) <==> MayDo(c, db, u, p, t)))
      else next == db
  {
    MayDoExactly(c, db, actor, AdminSuspend, now);
  }

  /** A reactivated user may do again what role and assignments say. */
  lemma ReactivationRestores(c: Config, db: Db, actor: Id, target: Id, now: Instant)
    requires OneEach(c.catalog)
    ensures var next := Reactivate(c, db, actor, target, now);
      if Holds(c, db, actor, AdminSuspend, now) && target in db.users then
        && next == db.(users := db.users[target := db.users[target].(status := Active)])
        && (forall p, t :: MayDo(c, next, target, p, t) <==>
              ByRole(c, db.users[target].role, p)
              || exists a :: a in db.assignments && ByAssignment(db.assignments[a], target, p, t))
        && (forall u, p, t :: u != target ==> (MayDo(c, next, u, p, t) <==> MayDo(c, db, u, p, t)))
      else next == db
  {
    MayDoExactly(c, db, actor, AdminSuspend, now);
    var next := Reactivate(c, db, actor, target, now);
    forall p, t ensures MayDo(c, next, target, p, t) <==> Holds(c, next, target, p, t) {
      MayDoExactly(c, next, target, p, t);
    }
  }

  /** The step reactivates the user or makes it accept an invitation. */
  predicate Revives(s: Step, u: Id) {
    (s.DoReactivate? && s.target == u) || (s.DoAccept? && s.actor == u)
  }

  /** Without such a step a suspended user stays suspended, and may do nothing. */
  lemma {:induction false} SuspensionLasts(c: Config, lower: string -> string, db: Db, steps: seq<Step>, u: Id)
    requires u in db.users && db.users[u].status == Suspended && forall s :: s in steps ==> !Revives(s, u)
    ensures var next := After(c, lower, db, steps);
      u in next.users && next.users[u].status == Suspended && forall p, t :: !MayDo(c, next, u, p, t)
    decreases |steps|
  {
    if steps != [] {
      var n := |steps| - 1;
      assert steps[n] in steps && forall s :: s in steps[..n] ==> s in steps;
      SuspensionLasts(c, lower, db, steps[..n], u);
      StaysSuspended(c, lower, After(c, lower, db, steps[..n]), steps[n], u);
    }
  }

  lemma StaysSuspended(c: Config, lower: string -> string, db: Db, s: Step, u: Id)
    requires u in db.users && db.users[u].status == Suspended && !Revives(s, u)
    ensures var next := Apply(c, lower, db, s); u in next.users && next.users[u].status == Suspended
  {
  }

  // ---------- assigning a role ----------

  /** The actor may grant the role: permitted, within its ceiling, and the role carries no high risk. */
  ghost predicate Grants(c: Config, db: Db, actor: Id, p: Permission, role: Role, d: RoleDefinition, now: Instant) {
    && Holds(c, db, actor, p, now) && Defines(c, role, d) && !d.highRisk
    && (IsSuper(db.users[actor].role) || forall q :: q in d.permissions ==> ByRole(c, db.users[actor].role, q))
  }

  /** The actor belongs to no organization, or names none or its own. */
  predicate InOwnScope(user: User, org: Option<Id>) {
    user.organizationId.None? || org.None? || org == user.organizationId
  }

  lemma MayGrantExactly(c: Config, db: Db, actor: Id, p: Permission, role: Role, d: RoleDefinition, now: Instant)
    requires OneEach(c.catalog) && Defines(c, role, d)
    ensures EnabledRole(c, role) == Some(d)
    ensures MayGrant(c, db, actor, p, role, now) && !d.highRisk <==> Grants(c, db, actor, p, role, d, now)
  {
    EnabledExactly(c, role, d);
    MayDoExactly(c, db, actor, p, now);
    if actor in db.users {
      forall q ensures q in RolePermissions(c, db.users[actor].role) <==> ByRole(c, db.users[actor].role, q) {
        RolePermissionsExactly(c, db.users[actor].role, q);
      }
    }
  }

  ghost predicate Assignable(c: Config, db: Db, actor: Id, target: Id, role: Role, d: RoleDefinition, org: Option<Id>, now: Instant) {
    && Grants(c, db, actor, AdminAssignRole, role, d, now) && actor != target && target in db.users
    && InOwnScope(db.users[actor], org)
  }

  /** The role's definition has the permission, the period covers the time, and the user is not suspended. */
  predicate Given(user: User, d: RoleDefinition, p: Permission, startsAt: Instant, until: Option<Instant>, t: Instant) {
    user.status != Suspended && p in d.permissions && startsAt <= t && (until.None? || t < until.value)
  }

  /** An assignment gives its target the role's permissions from its start until its end, and nobody anything
      else. Without its conditions no assignment changes. */
  lemma AssignmentGives(c: Config, db: Db, actor: Id, target: Id, role: Role, d: RoleDefinition, org: Option<Id>,
                        startsAt: Instant, until: Option<Instant>, id: Id, now: Instant)
    requires OneEach(c.catalog) && Defines(c, role, d) && id !in db.assignments
    ensures var next := Assign(c, db, actor, target, role, org, startsAt, until, id, now);
      && next.users == db.users && next.invitations == db.invitations
      && if Assignable(c, db, actor, target, role, d, org, now) then
           && id in next.assignments && next.assignments == db.assignments[id := next.assignments[id]]
           && next.assignments[id].assignedBy == actor && next.assignments[id].role == role
           && next.assignments[id].organizationId == (if org.Some? then org else db.users[actor].organizationId)
           && (forall u, p, t :: MayDo(c, next, u, p, t) <==>
                 MayDo(c, db, u, p, t) || (u == target && Given(db.users[u], d, p, startsAt, until, t)))
         else next.assignments == db.assignments
  {
    MayGrantExactly(c, db, actor, AdminAssignRole, role, d, now);
    var next := Assign(c, db, actor, target, role, org, startsAt, until, id, now);
    if Assignable(c, db, actor, target, role, d, org, now) {
      forall u, p, t ensures MayDo(c, next, u, p, t) <==>
        MayDo(c, db, u, p, t) || (u == target && Given(db.users[u], d, p, startsAt, until, t))
      {
        NewAssignmentGives(c, db, next, u, p, t, id);
      }
    }
  }

  lemma NewAssignmentGives(c: Config, db: Db, next: Db, u: Id, p: Permission, t: Instant, id: Id)
    requires OneEach(c.catalog) && id !in db.assignments && id in next.assignments
    requires next.users == db.users && next.assignments == db.assignments[id := next.assignments[id]]
    ensures MayDo(c, next, u, p, t) <==>
      MayDo(c, db, u, p, t)
      || (u in db.users && db.users[u].status != Suspended && ByAssignment(next.assignments[id], u, p, t))
  {
    MayDoExactly(c, db, u, p, t);
    MayDoExactly(c, next, u, p, t);
    if x :| x in db.assignments && ByAssignment(db.assignments[x], u, p, t) {
      assert x in next.assignments && next.assignments[x] == db.assignments[x];
    }
  }

  /** A high-risk role is not granted: the grant becomes a request that waits, blocked, for another user. */
  lemma HighRiskWaits(c: Config, db: Db, actor: Id, target: Id, role: Role, d: RoleDefinition, org: Option<Id>,
                      startsAt: Instant, until: Option<Instant>, id: Id, now: Instant)
    requires OneEach(c.catalog) && Defines(c, role, d) && d.highRisk && id !in db.approvals
    ensures var next := Assign(c, db, actor, target, role, org, startsAt, until, id, now);
      && next.assignments == db.assignments
      && (actor != target && Holds(c, db, actor, AdminAssignRole, now)
          && (IsSuper(db.users[actor].role) || forall q :: q in d.permissions ==> ByRole(c, db.users[actor].role, q)) ==>
        next.approvals == db.approvals[id := Approval(SuperAdminGrant, AwaitingDecision, actor, None, Some(role), true)])
  {
    EnabledExactly(c, role, d);
    MayDoExactly(c, db, actor, AdminAssignRole, now);
    if actor in db.users {
      forall q ensures q in RolePermissions(c, db.users[actor].role) <==> ByRole(c, db.users[actor].role, q) {
        RolePermissionsExactly(c, db.users[actor].role, q);
      }
    }
  }

  // ---------- inviting and accepting ----------

  ghost predicate Invitable(c: Config, db: Db, actor: Id, email: string, role: Role, d: RoleDefinition, org: Option<Id>, now: Instant) {
    && Grants(c, db, actor, AdminInvite, role, d, now) && InOwnScope(db.users[actor], org)
    && (forall u :: u in db.users ==> db.users[u].email != Some(email))
    && (forall i :: i in db.invitations ==>
      !(db.invitations[i].email == email && db.invitations[i].role == role && db.invitations[i].status == Pending))
  }

  /** An invitation is sent if and only if its conditions hold; then it is pending, with the role, the
      organization and the expiry that were asked for. */
  lemma InvitationIsSent(c: Config, db: Db, actor: Id, email: string, role: Role, d: RoleDefinition, org: Option<Id>,
                         expiresAt: Instant, id: Id, now: Instant)
    requires OneEach(c.catalog) && Defines(c, role, d) && id !in db.invitations
    ensures var next := Invite(c, db, actor, email, role, org, expiresAt, id, now);
      && next.users == db.users && next.assignments == db.assignments
      && if Invitable(c, db, actor, email, role, d, org, now) then
           next.invitations == db.invitations[id := Invitation(email, role, Pending, actor,
             if org.Some? then org else db.users[actor].organizationId, expiresAt)]
         else next.invitations == db.invitations
  {
    MayGrantExactly(c, db, actor, AdminInvite, role, d, now);
  }

  /** The invitation is pending, has not run out, names no other address than the user's, and its role is
      still enabled. */
  ghost predicate Acceptable(c: Config, lower: string -> string, db: Db, actor: Id, i: Id, d: RoleDefinition, now: Instant) {
    && i in db.invitations && actor in db.users
    && var inv, user := db.invitations[i], db.users[actor];
    && inv.status == Pending && now < inv.expiresAt && Defines(c, inv.role, d)
    && (inv.email == "" || user.email.None? || user.email == Some("") || lower(inv.email) == lower(user.email.value))
  }

  /** Accepting makes the user active in the invitation's role and organization, and gives the role's
      permissions until the invitation's expiry, if and only if the invitation is acceptable. */
  lemma AcceptanceGives(c: Config, lower: string -> string, db: Db, actor: Id, i: Id, d: RoleDefinition, id: Id, now: Instant)
    requires OneEach(c.catalog) && id !in db.assignments && (i in db.invitations ==> Defines(c, db.invitations[i].role, d))
    ensures var next := Accept(c, lower, db, actor, i, id, now);
      if Acceptable(c, lower, db, actor, i, d, now) then
        var inv, user := db.invitations[i], db.users[actor];
        && next.users == db.users[actor := user.(role := inv.role, status := Active,
             organizationId := if inv.organizationId.Some? then inv.organizationId else user.organizationId)]
        && next.invitations == db.invitations[i := inv.(status := Accepted)]
        && next.assignments == db.assignments[id := Assignment(actor, inv.role, true, d.permissions, inv.invitedBy,
             inv.organizationId, now, Some(inv.expiresAt))]
        && (forall t, p :: now <= t < inv.expiresAt && p in d.permissions ==> MayDo(c, next, actor, p, t))
      else if i in db.invitations && db.invitations[i].status == Pending && db.invitations[i].expiresAt <= now then
        next == db.(invitations := db.invitations[i := db.invitations[i].(status := Expired)])
      else next == db
  {
    var next := Accept(c, lower, db, actor, i, id, now);
    if i in db.invitations { EnabledExactly(c, db.invitations[i].role, d); }
    if Acceptable(c, lower, db, actor, i, d, now) {
      forall t, p | now <= t < db.invitations[i].expiresAt && p in d.permissions ensures MayDo(c, next, actor, p, t) {
        MayDoExactly(c, next, actor, p, t);
        assert ByAssignment(next.assignments[id], actor, p, t);
      }
    }
  }

  // ---------- approvals ----------

  /** A decision is recorded if and only if another user than the requester is permitted to decide; approved
      or not, execution stays blocked. */
  lemma DecisionIsRecorded(c: Config, db: Db, actor: Id, r: Id, approve: bool, now: Instant)
    requires OneEach(c.catalog)
    ensures var next := Decide(c, db, actor, r, approve, now);
      && next == db.(approvals := next.approvals)
      && if r in db.approvals && db.approvals[r].requester != actor
            && Holds(c, db, actor, PermissionFor(db.approvals[r].operation), now) then
           next.approvals == db.approvals[r := db.approvals[r].(approver := Some(actor), executionBlocked := true,
             status := if approve then ExecutionBlocked else Rejected)]
         else next.approvals == db.approvals
  {
    if r in db.approvals { MayDoExactly(c, db, actor, PermissionFor(db.approvals[r].operation), now); }
  }
}
