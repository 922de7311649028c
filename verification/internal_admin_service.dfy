/** InternalAdminService as methods over its tables. Each leaves the rows of the function of
    InternalAdminStore with the same role, and says what its caller can rely on. */
module InternalAdminService {
  import opened InternalAdminSafety
  import opened InternalAdminStore
  import opened Roles
  import opened Wrappers

  class InternalAdminService {
    const config: Config
    const lower: string -> string
    var users: map<Id, User>
    var invitations: map<Id, Invitation>
    var assignments: map<Id, Assignment>
    var approvals: map<Id, Approval>

    ghost function Rows(): Db
      reads this
    {
      Db(users, invitations, assignments, approvals)
    }

    /** The catalog is sound, no high-risk invitation is pending, and approvals are blocked. */
    ghost predicate Valid()
      reads this
    {
      Sound(config.catalog) && NoPendingHighRisk(Rows()) && ApprovalsBlocked(Rows())
    }

    constructor (features: set<Feature>, lower: string -> string, users: map<Id, User>)
      ensures Valid() && config == Config(Catalog(), features) && this.users == users
      ensures Rows() == Db(users, map[], map[], map[])
    {
      CatalogIsSound();
      config := Config(Catalog(), features);
      this.lower := lower;
      this.users := users;
      invitations, assignments, approvals := map[], map[], map[];
    }

    /** hasPermission: by the role, else by some assignment in force. */
    method HasPermission(u: Id, p: Permission, now: Instant) returns (r: bool)
      ensures r == MayDo(config, Rows(), u, p, now)
    {
      if u !in users || users[u].status == Suspended {
        return false;
      }
      if p in RolePermissions(config, users[u].role) {
        return true;
      }
      var rest := assignments.Keys;
      while rest != {}
        invariant rest <= assignments.Keys
        invariant forall a :: a in assignments && a !in rest ==>
          !(assignments[a].userId == u && InForce(assignments[a], now) && p in assignments[a].permissions)
        decreases rest
      {
        var a :| a in rest;
        var row := assignments[a];
        if row.userId == u && InForce(row, now) && p in row.permissions {
          return true;
        }
        rest := rest - {a};
      }
      return false;
    }

    /** A new request waits, blocked; no user, invitation or assignment changes. */
    method CreateApprovalRequest(actor: Id, o: Operation, role: Option<Role>, id: Id, now: Instant)
      requires Valid() && id !in approvals
      modifies this`approvals
      ensures Valid()
      ensures Rows() == RequestApproval(config, old(Rows()), actor, o, role, id, now)
    {
      StepKeepsBlocked(config, lower, Rows(), DoRequestApproval(actor, o, role, id, now));
      var allowed := HasPermission(actor, PermissionFor(o), now);
      if allowed {
        approvals := approvals[id := Approval(o, AwaitingDecision, actor, None, role, true)];
      }
    }

    /** The first checks of an invitation or an assignment: the role's definition when they pass. */
    method AssertGrant(actor: Id, p: Permission, role: Role, now: Instant) returns (definition: Option<RoleDefinition>)
      ensures definition.Some? <==> MayGrant(config, Rows(), actor, p, role, now)
      ensures definition.Some? ==> definition == EnabledRole(config, role)
    {
      var allowed := HasPermission(actor, p, now);
      if !allowed {
        return None;
      }
      definition := EnabledRole(config, role);
      if definition.Some? && !WithinCeiling(config, users[actor].role, definition.value.permissions) {
        return None;
      }
    }

    /** A new invitation comes from a permitted actor, and offers a role that is no super administrator's,
        passes on no granting permission and stays within the actor's role and organization. */
    method InviteAdministrator(actor: Id, email: string, role: Role, org: Option<Id>, expiresAt: Instant, id: Id, now: Instant)
      requires Valid() && id !in invitations && id !in approvals
      modifies this`invitations, this`approvals
      ensures Valid()
      ensures Rows() == Invite(config, old(Rows()), actor, email, role, org, expiresAt, id, now)
      ensures OffersGrantable(config, old(Rows()), actor, id, now, invitations)
    {
      InvitationsAreGrantable(config, Rows(), actor, email, role, org, expiresAt, id, now);
      StepMakesNoSuper(config, lower, Rows(), DoInvite(actor, email, role, org, expiresAt, id, now));
      StepKeepsBlocked(config, lower, Rows(), DoInvite(actor, email, role, org, expiresAt, id, now));
      var definition := AssertGrant(actor, AdminInvite, role, now);
      if definition.None? {
        return;
      }
      if definition.value.highRisk {
        CreateApprovalRequest(actor, SuperAdminGrant, Some(role), id, now);
        return;
      }
      if exists u :: u in users && users[u].email == Some(email) {
        return;
      }
      if exists i :: i in invitations && SameInvitation(invitations[i], email, role) {
        return;
      }
      if !ScopeAllowed(users[actor], org) {
        return;
      }
      invitations := invitations[id := Invitation(email, role, Pending, actor, ScopeOf(users[actor], org), expiresAt)];
    }

    /** Nobody else changes, and nobody becomes a super administrator. */
    method AcceptInvitation(actor: Id, i: Id, id: Id, now: Instant)
      requires Valid()
      modifies this`users, this`invitations, this`assignments
      ensures Valid()
      ensures Rows() == Accept(config, lower, old(Rows()), actor, i, id, now)
      ensures Supers(Rows()) <= Supers(old(Rows()))
      ensures forall u :: u in old(users) && u != actor ==> u in users && users[u] == old(users)[u]
      ensures users != old(users) ==> MayAccept(config, lower, old(Rows()), actor, i, now)
    {
      StepMakesNoSuper(config, lower, Rows(), DoAccept(actor, i, id, now));
      if i !in invitations || invitations[i].status != Pending {
        return;
      }
      var invitation := invitations[i];
      if invitation.expiresAt <= now {
        invitations := invitations[i := invitation.(status := Expired)];
        return;
      }
      if actor !in users || !Addressed(lower, invitation, users[actor]) {
        return;
      }
      var definition := EnabledRole(config, invitation.role);
      if definition.None? {
        return;
      }
      users := users[actor := users[actor].(role := invitation.role, status := Active,
                                            organizationId := ScopeOf(users[actor], invitation.organizationId))];
      assignments := assignments[id :=
        Assignment(actor, invitation.role, true, definition.value.permissions, invitation.invitedBy,
                   invitation.organizationId, now, Some(invitation.expiresAt))];
      invitations := invitations[i := invitation.(status := Accepted)];
    }

    /** A new assignment comes from a permitted actor other than its user, and carries the permissions of a
        role that passes on no granting permission and stays within the actor's role and organization. */
    method AssignRole(actor: Id, target: Id, role: Role, org: Option<Id>, startsAt: Instant, expiresAt: Option<Instant>,
                      id: Id, now: Instant)
      requires Valid() && id !in assignments && id !in approvals
      modifies this`assignments, this`approvals
      ensures Valid()
      ensures Rows() == Assign(config, old(Rows()), actor, target, role, org, startsAt, expiresAt, id, now)
      ensures GivesGrantable(config, old(Rows()), actor, id, now, assignments)
    {
      AssignmentsAreGrantable(config, Rows(), actor, target, role, org, startsAt, expiresAt, id, now);
      StepKeepsBlocked(config, lower, Rows(), DoAssign(actor, target, role, org, startsAt, expiresAt, id, now));
      AssignChecked(actor, target, role, org, startsAt, expiresAt, id, now);
    }

    /** The checks and the write of assignRole. */
    method AssignChecked(actor: Id, target: Id, role: Role, org: Option<Id>, startsAt: Instant, expiresAt: Option<Instant>,
                         id: Id, now: Instant)
      requires Valid() && id !in approvals
      modifies this`assignments, this`approvals
      ensures Rows() == Assign(config, old(Rows()), actor, target, role, org, startsAt, expiresAt, id, now)
    {
      if actor == target {
        return;
      }
      var definition := AssertGrant(actor, AdminAssignRole, role, now);
      if definition.None? {
        return;
      }
      if definition.value.highRisk {
        CreateApprovalRequest(actor, SuperAdminGrant, Some(role), id, now);
        return;
      }
      if target !in users || !ScopeAllowed(users[actor], org) {
        return;
      }
      assignments := assignments[id :=
        Assignment(target, role, true, definition.value.permissions, actor, ScopeOf(users[actor], org), startsAt, expiresAt)];
    }

    /** The assignment is out of force, unless it is a super administrator's; nobody gains a permission, and no user changes. */
    method RemoveRoleAssignment(actor: Id, a: Id, now: Instant)
      requires Valid()
      modifies this`assignments
      ensures Valid()
      ensures Rows() == RemoveRole(config, old(Rows()), actor, a, now)
      ensures OnlyTakes(config, old(Rows()), Rows())
      ensures old(MayDo(config, Rows(), actor, AdminAssignRole, now)) && a in old(assignments)
              && old(assignments)[a].role != SuperAdmin && old(assignments)[a].role != PlatformSuperAdmin ==>
        a in assignments && forall t :: !InForce(assignments[a], t)
    {
      RemovalOnlyTakes(config, Rows(), actor, a, now);
      var allowed := HasPermission(actor, AdminAssignRole, now);
      if !allowed || a !in assignments {
        return;
      }
      var row := assignments[a];
      if IsSuper(row.role) && !exists u :: u in users && u != row.userId && IsActiveSuper(users[u]) {
        return;
      }
      assignments := assignments[a := row.(active := false)];
    }

    /** Nobody gains a permission, a suspended user keeps none, and an active super administrator stays. */
    method SuspendAdministrator(actor: Id, target: Id, now: Instant)
      requires Valid()
      modifies this`users
      ensures Valid()
      ensures Rows() == Suspend(config, old(Rows()), actor, target, now)
      ensures OnlyTakes(config, old(Rows()), Rows())
      ensures users != old(users) ==> forall p, t :: !MayDo(config, Rows(), target, p, t)
      ensures HasActiveSuper(old(Rows())) ==> HasActiveSuper(Rows())
    {
      SuspensionOnlyTakes(config, Rows(), actor, target, now);
      var allowed := HasPermission(actor, AdminSuspend, now);
      if !allowed || actor == target {
        return;
      }
      if !(exists u :: u in users && u != target && IsActiveSuper(users[u])) || target !in users {
        return;
      }
      users := users[target := users[target].(status := Suspended)];
    }

    /** The decision executes nothing: the request is still blocked, and its approver is not its requester. */
    method DecideApprovalRequest(actor: Id, r: Id, approve: bool, now: Instant)
      requires Valid()
      modifies this`approvals
      ensures Valid()
      ensures Rows() == Decide(config, old(Rows()), actor, r, approve, now)
      ensures approvals != old(approvals) ==> r in approvals && approvals[r].executionBlocked
                                              && approvals[r].approver == Some(actor) && approvals[r].requester != actor
    {
      StepKeepsBlocked(config, lower, Rows(), DoDecide(actor, r, approve, now));
      if r !in approvals || approvals[r].requester == actor {
        return;
      }
      var allowed := HasPermission(actor, PermissionFor(approvals[r].operation), now);
      if !allowed {
        return;
      }
      var status := if approve then ExecutionBlocked else Rejected;
      approvals := approvals[r := approvals[r].(status := status, approver := Some(actor), executionBlocked := true)];
    }
  }
}
