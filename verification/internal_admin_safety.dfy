/** What every run of internal-administration operations keeps. */
module InternalAdminSafety {
  import opened InternalAdminStore
  import opened Roles
  import opened Wrappers

  datatype Step =
    | DoInvite(actor: Id, email: string, role: Role, org: Option<Id>, expiresAt: Instant, id: Id, now: Instant)
    | DoAccept(actor: Id, invitation: Id, id: Id, now: Instant)
    | DoAssign(actor: Id, target: Id, role: Role, org: Option<Id>, startsAt: Instant, until: Option<Instant>, id: Id, now: Instant)
    | DoRemoveRole(actor: Id, assignment: Id, now: Instant)
    | DoSuspend(actor: Id, target: Id, now: Instant)
    | DoReactivate(actor: Id, target: Id, now: Instant)
    | DoRequestApproval(actor: Id, operation: Operation, requested: Option<Role>, id: Id, now: Instant)
    | DoDecide(actor: Id, request: Id, approve: bool, now: Instant)

  function Apply(c: Config, lower: string -> string, db: Db, s: Step): Db {
    match s
    case DoInvite(actor, email, role, org, expiresAt, id, now) => Invite(c, db, actor, email, role, org, expiresAt, id, now)
    case DoAccept(actor, i, id, now) => Accept(c, lower, db, actor, i, id, now)
    case DoAssign(actor, target, role, org, startsAt, until, id, now) =>
      Assign(c, db, actor, target, role, org, startsAt, until, id, now)
    case DoRemoveRole(actor, a, now) => RemoveRole(c, db, actor, a, now)
    case DoSuspend(actor, target, now) => Suspend(c, db, actor, target, now)
    case DoReactivate(actor, target, now) => Reactivate(c, db, actor, target, now)
    case DoRequestApproval(actor, o, role, id, now) => RequestApproval(c, db, actor, o, role, id, now)
    case DoDecide(actor, r, approve, now) => Decide(c, db, actor, r, approve, now)
  }

  /** New rows get fresh ids. */
  predicate Fresh(db: Db, s: Step) {
    match s
    case DoInvite(_, _, _, _, _, id, _) => id !in db.invitations && id !in db.approvals
    case DoAccept(_, _, id, _) => id !in db.assignments
    case DoAssign(_, _, _, _, _, _, id, _) => id !in db.assignments && id !in db.approvals
    case DoRequestApproval(_, _, _, id, _) => id !in db.approvals
    case _ => true
  }

  function After(c: Config, lower: string -> string, db: Db, steps: seq<Step>): Db
    decreases |steps|
  {
    if steps == [] then db else Apply(c, lower, After(c, lower, db, steps[..|steps| - 1]), steps[|steps| - 1])
  }

  predicate Possible(c: Config, lower: string -> string, db: Db, steps: seq<Step>) {
    forall i :: 0 <= i < |steps| ==> Fresh(After(c, lower, db, steps[..i]), steps[i])
  }

  // ---------- the catalog ----------

  /** The permissions by which administrators make or unmake others. */
  predicate Granting(p: Permission) {
    p == AdminAssignRole || p == AdminInvite || p == AdminSuspend
  }

  predicate GrantsNothing(permissions: set<Permission>) {
    AdminAssignRole !in permissions && AdminInvite !in permissions && AdminSuspend !in permissions
  }

  predicate SoundDefinition(d: RoleDefinition) {
    d.role != SuperAdmin && (d.highRisk <==> d.role == PlatformSuperAdmin) && (d.highRisk || GrantsNothing(d.permissions))
  }

  /** The high-risk roles are exactly the super administrators of the catalog, and only they grant. */
  ghost predicate Sound(catalog: seq<RoleDefinition>) {
    forall d :: d in catalog ==> SoundDefinition(d)
  }

  lemma CatalogIsSound()
    ensures Sound(Catalog())
  {
    forall i | 0 <= i < |Catalog()| ensures SoundDefinition(Catalog()[i]) {
    }
  }

  // ---------- super administrators ----------

  function Supers(db: Db): set<Id> {
    set u | u in db.users && IsSuper(db.users[u].role)
  }

  ghost predicate NoPendingHighRisk(db: Db) {
    forall i :: i in db.invitations && db.invitations[i].status == Pending ==> !IsSuper(db.invitations[i].role)
  }

  lemma StepMakesNoSuper(c: Config, lower: string -> string, db: Db, s: Step)
    requires Sound(c.catalog) && NoPendingHighRisk(db)
    ensures var next := Apply(c, lower, db, s); NoPendingHighRisk(next) && Supers(next) <= Supers(db)
  {
    if s.DoInvite? && EnabledRole(c, s.role).Some? {
      assert EnabledRole(c, s.role).value in c.catalog;
    }
  }

  /** The set of super administrators never grows in any sequence of operations. */
  lemma {:induction false} SupersNeverGrow(c: Config, lower: string -> string, db: Db, steps: seq<Step>)
    requires Sound(c.catalog) && NoPendingHighRisk(db)
    ensures var next := After(c, lower, db, steps); NoPendingHighRisk(next) && Supers(next) <= Supers(db)
    decreases |steps|
  {
    if steps != [] {
      var before := steps[..|steps| - 1];
      SupersNeverGrow(c, lower, db, before);
      StepMakesNoSuper(c, lower, After(c, lower, db, before), steps[|steps| - 1]);
    }
  }

  // ---------- grants ----------

  /** A grant as it was made: by whom, with which role and organization, of what. */
  datatype Grant = Grant(actor: Id, actorRole: Role, actorOrg: Option<Id>, permissions: set<Permission>, org: Option<Id>)

  function GrantsOf(c: Config, lower: string -> string, db: Db, s: Step): seq<Grant> {
    var next := Apply(c, lower, db, s);
    if s.DoInvite? && s.id !in db.invitations && s.id in next.invitations && s.actor in db.users
       && EnabledRole(c, s.role).Some?
    then [Grant(s.actor, db.users[s.actor].role, db.users[s.actor].organizationId, EnabledRole(c, s.role).value.permissions,
                next.invitations[s.id].organizationId)]
    else if s.DoAssign? && s.id !in db.assignments && s.id in next.assignments && s.actor in db.users
    then [Grant(s.actor, db.users[s.actor].role, db.users[s.actor].organizationId, next.assignments[s.id].permissions,
                next.assignments[s.id].organizationId)]
    else []
  }

  /** Every invitation and assignment that was made, in order. */
  function Log(c: Config, lower: string -> string, db: Db, steps: seq<Step>): seq<Grant>
    decreases |steps|
  {
    if steps == [] then []
    else
      var before := steps[..|steps| - 1];
      Log(c, lower, db, before) + GrantsOf(c, lower, After(c, lower, db, before), steps[|steps| - 1])
  }

  /** No granting permission is passed on; the actor grants within the own role, and within the own
      organization when there is one. */
  ghost predicate Lawful(c: Config, g: Grant) {
    && GrantsNothing(g.permissions)
    && (IsSuper(g.actorRole) || g.permissions <= RolePermissions(c, g.actorRole))
    && (g.actorOrg.Some? ==> g.org == g.actorOrg)
  }

  ghost predicate Logged(a: Assignment, log: seq<Grant>) {
    exists g :: g in log && g.actor == a.assignedBy && g.permissions == a.permissions && g.org == a.organizationId
  }

  /** The assignment is what accepting the invitation makes. */
  predicate MadeFrom(c: Config, i: Invitation, a: Assignment) {
    && a.assignedBy == i.invitedBy && a.organizationId == i.organizationId && a.role == i.role
    && EnabledRole(c, i.role).Some? && a.permissions == EnabledRole(c, i.role).value.permissions
  }

  /** An assignment that is not from before goes back to a logged grant or to an invitation that was
      pending at the start. */
  ghost predicate Backed(c: Config, start: Db, a: Assignment, log: seq<Grant>) {
    || Logged(a, log)
    || exists i :: i in start.invitations && start.invitations[i].status == Pending && MadeFrom(c, start.invitations[i], a)
  }

  /** The log has a grant of the permissions of the invitation's role. */
  ghost predicate Offered(c: Config, i: Invitation, log: seq<Grant>) {
    exists g :: g in log && g.actor == i.invitedBy && g.org == i.organizationId
                && EnabledRole(c, i.role).Some? && g.permissions == EnabledRole(c, i.role).value.permissions
  }

  ghost predicate PendingKnown(c: Config, start: Db, db: Db, log: seq<Grant>) {
    forall i :: i in db.invitations && db.invitations[i].status == Pending ==>
      (i in start.invitations && start.invitations[i] == db.invitations[i]) || Offered(c, db.invitations[i], log)
  }

  ghost predicate GrantsAgree(c: Config, start: Db, db: Db, log: seq<Grant>) {
    && (forall g :: g in log ==> Lawful(c, g))
    && (forall a :: a in db.assignments && a !in start.assignments ==> Backed(c, start, db.assignments[a], log))
    && PendingKnown(c, start, db, log)
    && start.assignments.Keys <= db.assignments.Keys
  }

  lemma GrantIsLawful(c: Config, lower: string -> string, db: Db, s: Step)
    requires Sound(c.catalog)
    ensures forall g :: g in GrantsOf(c, lower, db, s) ==> Lawful(c, g)
  {
    if (s.DoInvite? || s.DoAssign?) && EnabledRole(c, s.role).Some? {
      assert EnabledRole(c, s.role).value in c.catalog;
    }
  }

  lemma LoggedStays(a: Assignment, log: seq<Grant>, more: seq<Grant>)
    requires Logged(a, log) || Logged(a, more)
    ensures Logged(a, log + more)
  {
    var g :| (g in log || g in more) && g.actor == a.assignedBy && g.permissions == a.permissions && g.org == a.organizationId;
    assert g in log + more;
  }

  lemma OfferedStays(c: Config, i: Invitation, log: seq<Grant>, more: seq<Grant>)
    requires Offered(c, i, log) || Offered(c, i, more)
    ensures Offered(c, i, log + more)
  {
    var g :| (g in log || g in more) && g.actor == i.invitedBy && g.org == i.organizationId
             && EnabledRole(c, i.role).Some? && g.permissions == EnabledRole(c, i.role).value.permissions;
    assert g in log + more;
  }

  lemma BackedStays(c: Config, start: Db, a: Assignment, log: seq<Grant>, more: seq<Grant>)
    requires Backed(c, start, a, log)
    ensures Backed(c, start, a, log + more)
  {
    if Logged(a, log) { LoggedStays(a, log, more); }
  }

  lemma NewAssignment(c: Config, lower: string -> string, start: Db, db: Db, s: Step, log: seq<Grant>, a: Id)
    requires Fresh(db, s) && PendingKnown(c, start, db, log)
    requires a in Apply(c, lower, db, s).assignments && a !in db.assignments
    ensures Backed(c, start, Apply(c, lower, db, s).assignments[a], log + GrantsOf(c, lower, db, s))
  {
    var more := GrantsOf(c, lower, db, s);
    var row := Apply(c, lower, db, s).assignments[a];
    if s.DoAccept? {
      var inv := db.invitations[s.invitation];
      assert MadeFrom(c, inv, row);
      if Offered(c, inv, log) {
        assert Logged(row, log);
        LoggedStays(row, log, more);
      }
    } else {
      assert s.DoAssign? && more[0] in more;
      assert Logged(row, more);
      LoggedStays(row, log, more);
    }
  }

  lemma OldAssignment(c: Config, lower: string -> string, db: Db, s: Step, a: Id)
    requires Fresh(db, s) && a in db.assignments
    ensures var next := Apply(c, lower, db, s).assignments;
      a in next && next[a] == db.assignments[a].(active := next[a].active)
  {
  }

  lemma PendingInvitation(c: Config, lower: string -> string, db: Db, s: Step, i: Id)
    requires Fresh(db, s)
    requires var next := Apply(c, lower, db, s).invitations; i in next && next[i].status == Pending
    ensures var next := Apply(c, lower, db, s).invitations;
      if i in db.invitations then next[i] == db.invitations[i] else Offered(c, next[i], GrantsOf(c, lower, db, s))
  {
    if i !in db.invitations {
      assert s.DoInvite? && i == s.id;
      assert GrantsOf(c, lower, db, s)[0] in GrantsOf(c, lower, db, s);
    }
  }

  lemma StepKeepsPending(c: Config, lower: string -> string, start: Db, db: Db, s: Step, log: seq<Grant>)
    requires PendingKnown(c, start, db, log) && Fresh(db, s)
    ensures PendingKnown(c, start, Apply(c, lower, db, s), log + GrantsOf(c, lower, db, s))
  {
    var next, more := Apply(c, lower, db, s), GrantsOf(c, lower, db, s);
    forall i | i in next.invitations && next.invitations[i].status == Pending
      ensures (i in start.invitations && start.invitations[i] == next.invitations[i]) || Offered(c, next.invitations[i], log + more)
    {
      PendingInvitation(c, lower, db, s, i);
      if Offered(c, next.invitations[i], log) || Offered(c, next.invitations[i], more) {
        OfferedStays(c, next.invitations[i], log, more);
      }
    }
  }

  lemma StepKeepsGrants(c: Config, lower: string -> string, start: Db, db: Db, s: Step, log: seq<Grant>)
    requires Sound(c.catalog) && GrantsAgree(c, start, db, log) && Fresh(db, s)
    ensures GrantsAgree(c, start, Apply(c, lower, db, s), log + GrantsOf(c, lower, db, s))
  {
    GrantIsLawful(c, lower, db, s);
    StepKeepsPending(c, lower, start, db, s, log);
    var next, more := Apply(c, lower, db, s), GrantsOf(c, lower, db, s);
    forall a | a in db.assignments ensures a in next.assignments
      && next.assignments[a] == db.assignments[a].(active := next.assignments[a].active)
    {
      OldAssignment(c, lower, db, s, a);
    }
    forall a | a in next.assignments && a !in start.assignments ensures Backed(c, start, next.assignments[a], log + more) {
      if a in db.assignments {
        assert Backed(c, start, db.assignments[a], log);
        assert Backed(c, start, next.assignments[a], log);
        BackedStays(c, start, next.assignments[a], log, more);
      } else {
        NewAssignment(c, lower, start, db, s, log, a);
      }
    }
    assert forall g :: g in log + more <==> g in log || g in more;
  }

  /** Every new assignment goes back to a lawful grant or to an invitation pending at the start. */
  lemma {:induction false} EveryAssignmentIsBacked(c: Config, lower: string -> string, db: Db, steps: seq<Step>)
    requires Sound(c.catalog) && Possible(c, lower, db, steps)
    ensures GrantsAgree(c, db, After(c, lower, db, steps), Log(c, lower, db, steps))
    decreases |steps|
  {
    if steps != [] {
      var n := |steps| - 1;
      PossiblePrefix(c, lower, db, steps);
      EveryAssignmentIsBacked(c, lower, db, steps[..n]);
      StepKeepsGrants(c, lower, db, After(c, lower, db, steps[..n]), steps[n], Log(c, lower, db, steps[..n]));
    }
  }

  ghost predicate NewGrantNothing(start: Db, db: Db) {
    forall a :: a in db.assignments && a !in start.assignments ==> GrantsNothing(db.assignments[a].permissions)
  }

  lemma StepGrantsNothing(c: Config, lower: string -> string, start: Db, db: Db, s: Step)
    requires Sound(c.catalog) && NoPendingHighRisk(db) && NewGrantNothing(start, db) && Fresh(db, s)
    requires start.assignments.Keys <= db.assignments.Keys
    ensures var next := Apply(c, lower, db, s);
      NewGrantNothing(start, next) && start.assignments.Keys <= next.assignments.Keys
  {
    var next := Apply(c, lower, db, s);
    forall a | a in next.assignments && a !in start.assignments ensures GrantsNothing(next.assignments[a].permissions) {
      if a in db.assignments {
        OldAssignment(c, lower, db, s, a);
      } else {
        var d := EnabledRole(c, next.assignments[a].role).value;
        assert d in c.catalog && SoundDefinition(d);
      }
    }
    forall a | a in start.assignments ensures a in next.assignments {
      OldAssignment(c, lower, db, s, a);
    }
  }

  /** From a start without a pending high-risk invitation, no new assignment ever carries the permission
      to assign roles, to invite or to suspend. */
  lemma {:induction false} NewAssignmentsGrantNothing(c: Config, lower: string -> string, db: Db, steps: seq<Step>)
    requires Sound(c.catalog) && Possible(c, lower, db, steps) && NoPendingHighRisk(db)
    ensures var next := After(c, lower, db, steps);
      NewGrantNothing(db, next) && db.assignments.Keys <= next.assignments.Keys
    decreases |steps|
  {
    if steps != [] {
      var n := |steps| - 1;
      PossiblePrefix(c, lower, db, steps);
      NewAssignmentsGrantNothing(c, lower, db, steps[..n]);
      SupersNeverGrow(c, lower, db, steps[..n]);
      StepGrantsNothing(c, lower, db, After(c, lower, db, steps[..n]), steps[n]);
    }
  }

  lemma PossiblePrefix(c: Config, lower: string -> string, db: Db, steps: seq<Step>)
    requires steps != [] && Possible(c, lower, db, steps)
    ensures var n := |steps| - 1;
      Possible(c, lower, db, steps[..n]) && Fresh(After(c, lower, db, steps[..n]), steps[n])
  {
    var before := steps[..|steps| - 1];
    forall i | 0 <= i < |before| ensures before[..i] == steps[..i] {}
  }

  // ---------- approvals ----------

  ghost predicate ApprovalsBlocked(db: Db) {
    forall r :: r in db.approvals ==>
      db.approvals[r].executionBlocked && db.approvals[r].approver != Some(db.approvals[r].requester)
  }

  lemma StepKeepsBlocked(c: Config, lower: string -> string, db: Db, s: Step)
    requires ApprovalsBlocked(db)
    ensures ApprovalsBlocked(Apply(c, lower, db, s))
  {
  }

  /** Every approval request stays blocked, and nobody approves an own request. */
  lemma {:induction false} ApprovalsStayBlocked(c: Config, lower: string -> string, db: Db, steps: seq<Step>)
    requires ApprovalsBlocked(db)
    ensures ApprovalsBlocked(After(c, lower, db, steps))
    decreases |steps|
  {
    if steps != [] {
      ApprovalsStayBlocked(c, lower, db, steps[..|steps| - 1]);
      StepKeepsBlocked(c, lower, After(c, lower, db, steps[..|steps| - 1]), steps[|steps| - 1]);
    }
  }

  // ---------- what the single operations promise ----------

  /** Nobody gains a permission. */
  ghost predicate OnlyTakes(c: Config, db: Db, next: Db) {
    forall u, p, t :: MayDo(c, next, u, p, t) ==> MayDo(c, db, u, p, t)
  }

  lemma RemovalOnlyTakes(c: Config, db: Db, actor: Id, a: Id, now: Instant)
    ensures OnlyTakes(c, db, RemoveRole(c, db, actor, a, now))
  {
    var next := RemoveRole(c, db, actor, a, now);
    forall u, p, t | MayDo(c, next, u, p, t) ensures MayDo(c, db, u, p, t) {
      if p !in RolePermissions(c, db.users[u].role) {
        var b :| b in next.assignments && next.assignments[b].userId == u && InForce(next.assignments[b], t)
                 && p in next.assignments[b].permissions;
        assert InForce(db.assignments[b], t);
      }
    }
  }

  lemma SuspensionOnlyTakes(c: Config, db: Db, actor: Id, target: Id, now: Instant)
    ensures var next := Suspend(c, db, actor, target, now);
      && OnlyTakes(c, db, next) && (HasActiveSuper(db) ==> HasActiveSuper(next))
      && (next != db ==> forall p, t :: !MayDo(c, next, target, p, t))
  {
    var next := Suspend(c, db, actor, target, now);
    if next != db {
      var u :| u in db.users && u != target && IsActiveSuper(db.users[u]);
      assert IsActiveSuper(next.users[u]);
      forall u, p, t | MayDo(c, next, u, p, t) ensures MayDo(c, db, u, p, t) {
        assert u != target;
      }
    }
  }

  /** The permissions of `role` lie within the own ones of `grantor`, unless that is a super administrator,
      and grant nothing further. */
  ghost predicate Grantable(c: Config, grantor: User, role: Role) {
    && EnabledRole(c, role).Some? && GrantsNothing(EnabledRole(c, role).value.permissions) && !IsSuper(role)
    && (IsSuper(grantor.role) || EnabledRole(c, role).value.permissions <= RolePermissions(c, grantor.role))
  }

  lemma GrantIsGrantable(c: Config, db: Db, actor: Id, p: Permission, role: Role, now: Instant)
    requires Sound(c.catalog) && MayGrant(c, db, actor, p, role, now) && !EnabledRole(c, role).value.highRisk
    ensures Grantable(c, db.users[actor], role)
  {
    assert SoundDefinition(EnabledRole(c, role).value);
  }

  /** The table has at most one new invitation: a permitted actor offers a grantable role within the own
      organization. */
  ghost predicate OffersGrantable(c: Config, db: Db, actor: Id, id: Id, now: Instant, next: map<Id, Invitation>) {
    next == db.invitations
    || (actor in db.users && MayDo(c, db, actor, AdminInvite, now) && id in next && next == db.invitations[id := next[id]]
        && Grantable(c, db.users[actor], next[id].role) && next[id].invitedBy == actor
        && (db.users[actor].organizationId.Some? ==> next[id].organizationId == db.users[actor].organizationId))
  }

  /** The table has at most one new assignment: a permitted actor gives another user the permissions of a
      grantable role within the own organization. */
  ghost predicate GivesGrantable(c: Config, db: Db, actor: Id, id: Id, now: Instant, next: map<Id, Assignment>) {
    next == db.assignments
    || (actor in db.users && MayDo(c, db, actor, AdminAssignRole, now) && id in next && next == db.assignments[id := next[id]]
        && Grantable(c, db.users[actor], next[id].role) && next[id].assignedBy == actor != next[id].userId
        && next[id].permissions == EnabledRole(c, next[id].role).value.permissions
        && (db.users[actor].organizationId.Some? ==> next[id].organizationId == db.users[actor].organizationId))
  }

  lemma InvitationsAreGrantable(c: Config, db: Db, actor: Id, email: string, role: Role, org: Option<Id>,
                                expiresAt: Instant, id: Id, now: Instant)
    requires Sound(c.catalog) && id !in db.invitations
    ensures OffersGrantable(c, db, actor, id, now, Invite(c, db, actor, email, role, org, expiresAt, id, now).invitations)
  {
    if MayGrant(c, db, actor, AdminInvite, role, now) && !EnabledRole(c, role).value.highRisk {
      GrantIsGrantable(c, db, actor, AdminInvite, role, now);
    }
  }

  lemma AssignmentsAreGrantable(c: Config, db: Db, actor: Id, target: Id, role: Role, org: Option<Id>, startsAt: Instant,
                                expiresAt: Option<Instant>, id: Id, now: Instant)
    requires Sound(c.catalog) && id !in db.assignments
    ensures GivesGrantable(c, db, actor, id, now,
                           Assign(c, db, actor, target, role, org, startsAt, expiresAt, id, now).assignments)
  {
    if MayGrant(c, db, actor, AdminAssignRole, role, now) && !EnabledRole(c, role).value.highRisk {
      GrantIsGrantable(c, db, actor, AdminAssignRole, role, now);
    }
  }

  // ---------- who can grant ----------

  ghost predicate OnlySupersHold(db: Db) {
    forall a :: a in db.assignments ==> GrantsNothing(db.assignments[a].permissions)
  }

  lemma HoldersAreSupers(c: Config, db: Db, u: Id, p: Permission, now: Instant)
    requires Sound(c.catalog) && OnlySupersHold(db) && Granting(p) && MayDo(c, db, u, p, now)
    ensures u in Supers(db)
  {
    var role := db.users[u].role;
    if EnabledRole(c, role).Some? {
      assert EnabledRole(c, role).value in c.catalog;
    }
  }

  lemma StepKeepsHolders(c: Config, lower: string -> string, db: Db, s: Step)
    requires Sound(c.catalog) && OnlySupersHold(db) && NoPendingHighRisk(db)
    ensures OnlySupersHold(Apply(c, lower, db, s))
    ensures forall g :: g in GrantsOf(c, lower, db, s) ==> g.actor in Supers(db) && IsSuper(g.actorRole)
  {
    if s.DoAssign? && MayDo(c, db, s.actor, AdminAssignRole, s.now) {
      HoldersAreSupers(c, db, s.actor, AdminAssignRole, s.now);
    }
    if s.DoInvite? && MayDo(c, db, s.actor, AdminInvite, s.now) {
      HoldersAreSupers(c, db, s.actor, AdminInvite, s.now);
    }
  }

  /** When no assignment grants at the start, only the super administrators of the start ever grant. */
  lemma {:induction false} OnlyFirstSupersGrant(c: Config, lower: string -> string, db: Db, steps: seq<Step>)
    requires Sound(c.catalog) && OnlySupersHold(db) && NoPendingHighRisk(db)
    ensures OnlySupersHold(After(c, lower, db, steps))
    ensures forall g :: g in Log(c, lower, db, steps) ==> g.actor in Supers(db) && IsSuper(g.actorRole)
    decreases |steps|
  {
    if steps != [] {
      var before := steps[..|steps| - 1];
      OnlyFirstSupersGrant(c, lower, db, before);
      SupersNeverGrow(c, lower, db, before);
      StepKeepsHolders(c, lower, After(c, lower, db, before), steps[|steps| - 1]);
    }
  }

  // ---------- the last super administrator ----------

  ghost predicate HasActiveSuper(db: Db) {
    exists u :: u in db.users && IsActiveSuper(db.users[u])
  }

  /** The user accepts an invitation. */
  predicate Joins(c: Config, lower: string -> string, db: Db, s: Step) {
    s.DoAccept? && MayAccept(c, lower, db, s.actor, s.invitation, s.now)
  }

  ghost predicate OnlyActiveSuper(db: Db, u: Id) {
    u in db.users && IsActiveSuper(db.users[u]) && !AnotherSuper(db, u)
  }

  /** One operation at a time, suspending and removing roles leave an active super administrator, and the
      last one leaves if and only if it accepts an invitation, whose role replaces the own. */
  lemma LastSuperLeavesOnlyByAccepting(c: Config, lower: string -> string, db: Db, s: Step)
    requires Sound(c.catalog) && NoPendingHighRisk(db) && HasActiveSuper(db) && Fresh(db, s)
    ensures HasActiveSuper(Apply(c, lower, db, s)) <==> !(Joins(c, lower, db, s) && OnlyActiveSuper(db, s.actor))
  {
    var next := Apply(c, lower, db, s);
    if Joins(c, lower, db, s) {
      Accepting(c, lower, db, s);
      if AnotherSuper(db, s.actor) {
        var u :| u in db.users && u != s.actor && IsActiveSuper(db.users[u]);
        assert IsActiveSuper(next.users[u]);
      }
    } else if s.DoSuspend? && next != db {
      var u :| u in db.users && u != s.target && IsActiveSuper(db.users[u]);
      assert IsActiveSuper(next.users[u]);
    } else {
      var u :| u in db.users && IsActiveSuper(db.users[u]);
      assert u in next.users && IsActiveSuper(next.users[u]);
    }
  }

  /** Such a state: the only user is the super administrator 0, invited as a support administrator. */
  lemma LastSuperCanLeave(c: Config, lower: string -> string, invitedBy: Id, now: Instant)
    requires Sound(c.catalog) && EnabledRole(c, SupportAdmin).Some?
    ensures var inv := Invitation("admin@example.org", SupportAdmin, Pending, invitedBy, None, now + 1);
      var user := User(SuperAdmin, Active, None, Some("admin@example.org"));
      var db := Db(map[0 := user], map[0 := inv], map[], map[]);
      && NoPendingHighRisk(db) && HasActiveSuper(db) && Fresh(db, DoAccept(0, 0, 0, now))
      && !HasActiveSuper(Apply(c, lower, db, DoAccept(0, 0, 0, now)))
  {
    var inv := Invitation("admin@example.org", SupportAdmin, Pending, invitedBy, None, now + 1);
    var user := User(SuperAdmin, Active, None, Some("admin@example.org"));
    var db := Db(map[0 := user], map[0 := inv], map[], map[]);
    assert IsActiveSuper(db.users[0]);
    LastSuperLeavesOnlyByAccepting(c, lower, db, DoAccept(0, 0, 0, now));
  }

  lemma Accepting(c: Config, lower: string -> string, db: Db, s: Step)
    requires NoPendingHighRisk(db) && Joins(c, lower, db, s)
    ensures var next := Apply(c, lower, db, s);
      && s.actor in db.users && next.users.Keys == db.users.Keys && !IsSuper(next.users[s.actor].role)
      && forall u :: u in db.users && u != s.actor ==> next.users[u] == db.users[u]
  {
  }
}
