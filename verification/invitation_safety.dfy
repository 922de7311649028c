/** What every sequential run of the invitation operations keeps. */
module InvitationSafety {
  import opened InvitationStore
  import opened Roles
  import opened Wrappers

  datatype Step =
    | DoInvite(actor: Id, email: Option<string>, phone: Option<string>, role: Role, requested: Option<Id>, passes: bool,
               id: Id, now: Instant, later: Instant)
    | DoCancel(actor: Id, i: Id, revoke: bool, now: Instant)
    | DoResend(actor: Id, i: Id, now: Instant)
    | DoSweep(email: Option<string>, phone: Option<string>, now: Instant)
    | DoAccept(u: Id, i: Id, now: Instant, later: Instant)
    | DoDecline(u: Id, i: Id, now: Instant)

  function Apply(lower: string -> string, db: Db, s: Step): Db {
    match s
    case DoInvite(actor, email, phone, role, requested, passes, id, now, later) =>
      Invite(db, actor, email, phone, role, requested, passes, id, now, later)
    case DoCancel(actor, i, revoke, _) => Cancel(db, actor, i, revoke)
    case DoResend(actor, i, now) => Resend(db, actor, i, now)
    case DoSweep(email, phone, now) => Sweep(db, email, phone, now)
    case DoAccept(u, i, now, later) => Accept(lower, db, u, i, now, later)
    case DoDecline(u, i, now) => Decline(lower, db, u, i, now)
  }

  function After(lower: string -> string, db: Db, steps: seq<Step>): Db
    decreases |steps|
  {
    if steps == [] then db else Apply(lower, After(lower, db, steps[..|steps| - 1]), steps[|steps| - 1])
  }

  function EndOf(s: Step): Instant {
    if s.DoInvite? || s.DoAccept? then s.later else s.now
  }

  /** New ids are fresh and the clock never runs back. */
  predicate Possible(lower: string -> string, db: Db, steps: seq<Step>)
    decreases |steps|
  {
    steps != [] ==>
      var n := |steps| - 1;
      && Possible(lower, db, steps[..n]) && steps[n].now <= EndOf(steps[n])
      && (steps[n].DoInvite? ==> steps[n].id !in After(lower, db, steps[..n]).invitations)
      && (n > 0 ==> EndOf(steps[n - 1]) <= steps[n].now)
  }

  // ---------- resolved invitations ----------

  /** Only the status and the acceptor can change, and only while the invitation is pending. */
  predicate Grown(a: Invitation, b: Invitation) {
    b == a.(status := b.status, acceptedBy := b.acceptedBy) && (a.status != Pending ==> b == a)
  }

  lemma StepGrows(lower: string -> string, db: Db, s: Step, i: Id)
    requires i in db.invitations && (s.DoInvite? ==> s.id !in db.invitations)
    ensures var next := Apply(lower, db, s).invitations; i in next && Grown(db.invitations[i], next[i])
  {
  }

  ghost predicate AllGrown(db: Db, next: Db) {
    forall i :: i in db.invitations ==> i in next.invitations && Grown(db.invitations[i], next.invitations[i])
  }

  ghost predicate NothingIsProlonged(a: map<Id, Invitation>, b: map<Id, Invitation>) {
    a.Keys == b.Keys && forall i :: i in a ==> b[i].expiresAt == a[i].expiresAt
  }

  /** Sweeping closes only what has run out and prolongs nothing; what stays pending is as it was. */
  lemma SweepGrows(db: Db, email: Option<string>, phone: Option<string>, now: Instant)
    ensures var next := Sweep(db, email, phone, now);
      && AllGrown(db, next) && NothingIsProlonged(db.invitations, next.invitations)
      && (OnlyInvitable(db) ==> OnlyInvitable(next))
      && forall i :: i in next.invitations && SentTo(next.invitations[i], email, phone) ==>
        next.invitations[i] == db.invitations[i] && !ExpiredAt(next.invitations[i], now)
  {
  }

  lemma AllGrownTransitive(a: Db, b: Db, c: Db)
    requires AllGrown(a, b) && AllGrown(b, c)
    ensures AllGrown(a, c)
  {
  }

  lemma StepAllGrown(lower: string -> string, db: Db, s: Step)
    requires s.DoInvite? ==> s.id !in db.invitations
    ensures AllGrown(db, Apply(lower, db, s))
  {
    forall i | i in db.invitations
      ensures i in Apply(lower, db, s).invitations && Grown(db.invitations[i], Apply(lower, db, s).invitations[i])
    {
      StepGrows(lower, db, s, i);
    }
  }

  /** Over every run no invitation disappears, and one that has left PENDING never changes again. */
  lemma {:induction false} ResolvedIsFinal(lower: string -> string, db: Db, steps: seq<Step>, k: nat)
    requires Possible(lower, db, steps) && k <= |steps|
    ensures AllGrown(After(lower, db, steps[..k]), After(lower, db, steps))
    decreases |steps|
  {
    if k == |steps| {
      assert steps[..k] == steps;
    } else {
      var n := |steps| - 1;
      assert steps[..n][..k] == steps[..k];
      ResolvedIsFinal(lower, db, steps[..n], k);
      StepAllGrown(lower, After(lower, db, steps[..n]), steps[n]);
      AllGrownTransitive(After(lower, db, steps[..k]), After(lower, db, steps[..n]), After(lower, db, steps));
    }
  }

  /** Nobody can accept or decline the invitation any more. */
  ghost predicate Closed(lower: string -> string, db: Db, i: Id) {
    && (forall u, now, later :: Accept(lower, db, u, i, now, later) == db)
    && (forall u, now :: Decline(lower, db, u, i, now) == db)
  }

  lemma ResolvedIsClosed(lower: string -> string, db: Db, i: Id)
    requires i in db.invitations && db.invitations[i].status != Pending
    ensures Closed(lower, db, i)
  {
    forall u, now, later ensures Accept(lower, db, u, i, now, later) == db {
      ResolvedIsKept(lower, db, u, i, now, later);
    }
    forall u, now ensures Decline(lower, db, u, i, now) == db {
      ResolvedIsKept(lower, db, u, i, now, now);
    }
  }

  lemma ResolvedIsKept(lower: string -> string, db: Db, u: Id, i: Id, now: Instant, later: Instant)
    requires i in db.invitations && db.invitations[i].status != Pending
    ensures Accept(lower, db, u, i, now, later) == Decline(lower, db, u, i, now) == db
  {
  }

  // ---------- duplicates ----------

  predicate SameTarget(a: Invitation, b: Invitation) {
    a.organizationId == b.organizationId && a.role == b.role && (Shares(a.email, b.email) || Shares(a.phone, b.phone))
  }

  predicate Open(i: Invitation, now: Instant) {
    i.status == Pending && !ExpiredAt(i, now)
  }

  /** At a time, no two unexpired pending invitations of one organization and role share an address or a
      number; pending invitations run out. */
  ghost predicate NoDuplicates(db: Db, now: Instant) {
    && (forall i :: i in db.invitations && db.invitations[i].status == Pending ==> db.invitations[i].expiresAt.Some?)
    && forall i, j :: i in db.invitations && j in db.invitations && i != j && SameTarget(db.invitations[i], db.invitations[j]) ==>
      !(Open(db.invitations[i], now) && Open(db.invitations[j], now))
  }

  function Clock(start: Instant, steps: seq<Step>): Instant {
    if steps == [] then start else EndOf(steps[|steps| - 1])
  }

  /** A step other than a new invitation only closes pending ones. */
  lemma StepOpensNone(lower: string -> string, db: Db, s: Step)
    requires !s.DoInvite?
    ensures var next := Apply(lower, db, s).invitations;
      && next.Keys == db.invitations.Keys
      && forall i :: i in next ==> next[i] == db.invitations[i] || next[i].status != Pending
  {
  }

  lemma StepKeepsDistinct(lower: string -> string, db: Db, s: Step, clock: Instant)
    requires NoDuplicates(db, clock) && clock <= s.now <= EndOf(s) && (s.DoInvite? ==> s.id !in db.invitations)
    ensures NoDuplicates(Apply(lower, db, s), EndOf(s))
  {
    var next := Apply(lower, db, s);
    if s.DoInvite? {
      InviteKeepsDistinct(db, s, clock);
    } else {
      StepOpensNone(lower, db, s);
      forall i, j | i in next.invitations && j in next.invitations && i != j && SameTarget(next.invitations[i], next.invitations[j])
        ensures !(Open(next.invitations[i], EndOf(s)) && Open(next.invitations[j], EndOf(s)))
      {
        if Open(next.invitations[i], EndOf(s)) && Open(next.invitations[j], EndOf(s)) {
          assert Open(db.invitations[i], clock) && Open(db.invitations[j], clock);
        }
      }
    }
  }

  /** A row is added that shares its target with no open invitation. */
  lemma AddKeepsDistinct(db: Db, id: Id, row: Invitation, clock: Instant, later: Instant)
    requires NoDuplicates(db, clock) && clock <= later && id !in db.invitations && row.expiresAt.Some?
    requires forall i :: i in db.invitations && SameTarget(db.invitations[i], row) ==> !Open(db.invitations[i], later)
    ensures NoDuplicates(db.(invitations := db.invitations[id := row]), later)
  {
    var next := db.invitations[id := row];
    forall i, j | i in next && j in next && i != j && SameTarget(next[i], next[j])
      ensures !(Open(next[i], later) && Open(next[j], later))
    {
      assert SameTarget(next[j], next[i]);
      if i != id && j != id && Open(next[i], later) && Open(next[j], later) {
        assert Open(db.invitations[i], clock) && Open(db.invitations[j], clock);
      }
    }
  }

  lemma NoDuplicateIsOpen(i: Invitation, row: Invitation, now: Instant, later: Instant)
    requires !Duplicate(i, row.email, row.phone, row.role, row.organizationId, now) && now <= later
    requires i.status == Pending ==> i.expiresAt.Some?
    ensures SameTarget(i, row) ==> !Open(i, later)
  {
  }

  lemma InviteKeepsDistinct(db: Db, s: Step, clock: Instant)
    requires s.DoInvite? && NoDuplicates(db, clock) && clock <= s.now <= s.later && s.id !in db.invitations
    ensures NoDuplicates(Invite(db, s.actor, s.email, s.phone, s.role, s.requested, s.passes, s.id, s.now, s.later), s.later)
  {
    var next := Invite(db, s.actor, s.email, s.phone, s.role, s.requested, s.passes, s.id, s.now, s.later);
    if next == db {
      TimePassesDistinct(db, clock, s.later);
    } else {
      var row := next.invitations[s.id];
      forall i | i in db.invitations && SameTarget(db.invitations[i], row) ensures !Open(db.invitations[i], s.later) {
        NoDuplicateIsOpen(db.invitations[i], row, s.now, s.later);
      }
      AddKeepsDistinct(db, s.id, row, clock, s.later);
    }
  }

  lemma TimePassesDistinct(db: Db, clock: Instant, later: Instant)
    requires NoDuplicates(db, clock) && clock <= later
    ensures NoDuplicates(db, later)
  {
    forall i, j | i in db.invitations && j in db.invitations && i != j && SameTarget(db.invitations[i], db.invitations[j])
      ensures !(Open(db.invitations[i], later) && Open(db.invitations[j], later))
    {
      if Open(db.invitations[i], later) && Open(db.invitations[j], later) {
        assert Open(db.invitations[i], clock) && Open(db.invitations[j], clock);
      }
    }
  }

  /** In every run, at any time, no two unexpired pending invitations of one organization and role share an
      address or a number. */
  lemma {:induction false} NeverTwice(lower: string -> string, db: Db, steps: seq<Step>, start: Instant)
    requires NoDuplicates(db, start) && Possible(lower, db, steps) && (steps != [] ==> start <= steps[0].now)
    ensures NoDuplicates(After(lower, db, steps), Clock(start, steps))
    decreases |steps|
  {
    if steps != [] {
      var n := |steps| - 1;
      NeverTwice(lower, db, steps[..n], start);
      StepKeepsDistinct(lower, After(lower, db, steps[..n]), steps[n], Clock(start, steps[..n]));
    }
  }

  // ---------- acceptance ----------

  /** The step makes `u` accept invitation `i`. */
  predicate Accepts(lower: string -> string, db: Db, s: Step) {
    && s.DoAccept? && s.u in db.users && s.i in db.invitations && IsInvitee(lower, db.invitations[s.i], db.users[s.u])
    && Open(db.invitations[s.i], s.now) && Open(db.invitations[s.i], s.later)
  }

  /** Acceptance happens to the invitee of an open invitation, and only then does anybody or any membership
      change. It keeps a suspended user suspended and a super administrator's role, and it leaves the
      provider's membership of the organization active. */
  lemma AcceptanceIsBounded(lower: string -> string, db: Db, s: Step)
    requires s.now <= EndOf(s)
    ensures var next := Apply(lower, db, s);
      if Accepts(lower, db, s) then
        var i, a, b := db.invitations[s.i], db.users[s.u], next.users[s.u];
        && next.invitations[s.i].status == Accepted && next.invitations[s.i].acceptedBy == Some(s.u)
        && next.users == db.users[s.u := b]
        && (a.account == Suspended <==> b.account == Suspended) && (a.account != Suspended ==> b.account == Active)
        && (b.role == a.role || (b.role == i.role && a.role != SuperAdmin))
        && (b.organizationId == a.organizationId || b.organizationId == i.organizationId)
        && (i.role == Provider && i.organizationId.Some? ==>
          var key := (s.u, i.organizationId.value);
          key in next.memberships && next.memberships[key].active && next.memberships == db.memberships[key := next.memberships[key]])
        && (i.role != Provider || i.organizationId.None? ==> next.memberships == db.memberships)
      else next.users == db.users && next.memberships == db.memberships
  {
  }

  // ---------- memberships ----------

  /** The step makes a provider accept an invitation of an organization. */
  predicate Joins(lower: string -> string, db: Db, s: Step) {
    Accepts(lower, db, s) && db.invitations[s.i].role == Provider && db.invitations[s.i].organizationId.Some?
  }

  predicate ActiveMember(db: Db, key: (Id, Id)) {
    key in db.memberships && db.memberships[key].active
  }

  lemma MembersStay(lower: string -> string, db: Db, s: Step, key: (Id, Id))
    requires ActiveMember(db, key)
    ensures ActiveMember(Apply(lower, db, s), key)
  {
  }

  /** An accepted provider invitation of an organization has an active membership of its acceptor in every
      later state. */
  lemma {:induction false} AcceptedProvidersAreMembers(lower: string -> string, db: Db, steps: seq<Step>, k: nat)
    requires k < |steps| && Joins(lower, After(lower, db, steps[..k]), steps[k])
    ensures var before := After(lower, db, steps[..k]);
      ActiveMember(After(lower, db, steps), (steps[k].u, before.invitations[steps[k].i].organizationId.value))
    decreases |steps|
  {
    var n := |steps| - 1;
    var before := After(lower, db, steps[..k]);
    if k < n {
      assert steps[..n][..k] == steps[..k];
      AcceptedProvidersAreMembers(lower, db, steps[..n], k);
      MembersStay(lower, After(lower, db, steps[..n]), steps[n], (steps[k].u, before.invitations[steps[k].i].organizationId.value));
    }
  }

  // ---------- super administrators ----------

  function Supers(db: Db): set<Id> {
    set u | u in db.users && IsSuper(db.users[u].role)
  }

  /** A step enlarges the set of super administrators if and only if a user who is none accepts an open
      invitation of such a role. */
  lemma SupersGrowExactly(lower: string -> string, db: Db, s: Step)
    ensures !(Supers(Apply(lower, db, s)) <= Supers(db)) <==>
      Accepts(lower, db, s) && IsSuper(db.invitations[s.i].role) && !IsSuper(db.users[s.u].role)
  {
    var next := Apply(lower, db, s);
    if Accepts(lower, db, s) {
      assert s.u in Supers(next) <==> IsSuper(next.users[s.u].role);
      assert forall u :: u in Supers(next) && u != s.u ==> u in Supers(db);
    } else {
      assert next.users == db.users;
    }
  }

  ghost predicate Elevated(db: Db, u: Id) {
    exists i :: i in db.invitations && db.invitations[i].status == Accepted && db.invitations[i].acceptedBy == Some(u)
                && IsSuper(db.invitations[i].role)
  }

  lemma StepElevates(lower: string -> string, db: Db, s: Step, u: Id)
    requires s.DoInvite? ==> s.id !in db.invitations
    requires u in Supers(Apply(lower, db, s)) && (u !in Supers(db) || Elevated(db, u))
    ensures Elevated(Apply(lower, db, s), u)
  {
    var next := Apply(lower, db, s);
    if Elevated(db, u) {
      var i :| i in db.invitations && db.invitations[i].status == Accepted && db.invitations[i].acceptedBy == Some(u)
               && IsSuper(db.invitations[i].role);
      StepGrows(lower, db, s, i);
      assert next.invitations[i] == db.invitations[i];
    } else {
      SupersGrowExactly(lower, db, s);
      assert next.invitations[s.i].acceptedBy == Some(u);
    }
  }

  /** Every super administrator that a run made has accepted an invitation of such a role. */
  lemma {:induction false} NewSupersWereInvited(lower: string -> string, db: Db, steps: seq<Step>, u: Id)
    requires Possible(lower, db, steps) && u in Supers(After(lower, db, steps)) && u !in Supers(db)
    ensures Elevated(After(lower, db, steps), u)
    decreases |steps|
  {
    var n := |steps| - 1;
    var before := After(lower, db, steps[..n]);
    if u in Supers(before) { NewSupersWereInvited(lower, db, steps[..n], u); }
    StepElevates(lower, before, steps[n], u);
  }

  /** The role checks of inviteUser do not name PLATFORM_SUPER_ADMIN: an organization's administrator
      invites a citizen into that role, who accepts and is a super administrator. */
  lemma OrgAdminCanMakeSuper(lower: string -> string, db: Db, actor: Id, u: Id, id: Id, now: Instant)
    requires db.invitations == map[] && actor in db.users && u in db.users
    requires db.users[actor].role == OrgAdmin && db.users[actor].organizationId.Some?
    requires db.users[u].role == Citizen && Given(db.users[u].email)
    ensures var invite := DoInvite(actor, db.users[u].email, None, PlatformSuperAdmin, None, true, id, now, now);
      var steps := [invite, DoAccept(u, id, now, now)];
      Possible(lower, db, steps) && u !in Supers(db) && u in Supers(After(lower, db, steps))
  {
    var invite := DoInvite(actor, db.users[u].email, None, PlatformSuperAdmin, None, true, id, now, now);
    OrgAdminInvites(lower, db, invite);
    var invited := Apply(lower, db, invite);
    InviteeRises(lower, invited, u, id, now);
    TwoSteps(lower, db, invite, DoAccept(u, id, now, now));
  }

  lemma TwoSteps(lower: string -> string, db: Db, s: Step, t: Step)
    requires s.now <= EndOf(s) <= t.now <= EndOf(t) && !t.DoInvite? && (s.DoInvite? ==> s.id !in db.invitations)
    ensures Possible(lower, db, [s, t]) && After(lower, db, [s, t]) == Apply(lower, Apply(lower, db, s), t)
  {
    var steps := [s, t];
    assert steps[..0] == [] && steps[..1] == [s] && [s][..0] == [];
    assert After(lower, db, [s]) == Apply(lower, db, s);
  }

  lemma OrgAdminInvites(lower: string -> string, db: Db, s: Step)
    requires db.invitations == map[] && s.DoInvite? && s.role == PlatformSuperAdmin && s.passes && Given(s.email) && s.phone == None
    requires s.actor in db.users && db.users[s.actor].role == OrgAdmin && db.users[s.actor].organizationId.Some? && s.requested == None
    ensures Apply(lower, db, s) == db.(invitations := map[s.id :=
      Invitation(s.email, None, PlatformSuperAdmin, db.users[s.actor].organizationId, Pending, Some(s.later + WEEK_MS), None)])
  {
    assert !AnyDuplicate(db, s.email, s.phone, s.role, db.users[s.actor].organizationId, s.now);
  }

  lemma InviteeRises(lower: string -> string, db: Db, u: Id, i: Id, now: Instant)
    requires u in db.users && i in db.invitations && db.users[u].role == Citizen && Given(db.users[u].email)
    requires db.invitations[i].email == db.users[u].email && db.invitations[i].role == PlatformSuperAdmin
    requires Open(db.invitations[i], now)
    ensures u !in Supers(db) && u in Supers(Apply(lower, db, DoAccept(u, i, now, now)))
  {
  }

  /** SUPER_ADMIN and the ten governance roles. */
  predicate Reserved(role: Role) {
    role == SuperAdmin || IsGovernance(role)
  }

  function HoldersOfReserved(db: Db): set<Id> {
    set u | u in db.users && Reserved(db.users[u].role)
  }

  ghost predicate OnlyInvitable(db: Db) {
    forall i :: i in db.invitations && db.invitations[i].status == Pending ==> !Reserved(db.invitations[i].role)
  }

  /** Invitations never make a SUPER_ADMIN or a holder of a governance role, and never lift a suspension. */
  lemma {:induction false} ReservedRolesStay(lower: string -> string, db: Db, steps: seq<Step>)
    requires OnlyInvitable(db)
    ensures var next := After(lower, db, steps);
      && OnlyInvitable(next) && HoldersOfReserved(next) <= HoldersOfReserved(db) && next.users.Keys == db.users.Keys
      && forall u :: u in db.users && db.users[u].account == Suspended ==> next.users[u].account == Suspended
    decreases |steps|
  {
    if steps != [] {
      var n := |steps| - 1;
      ReservedRolesStay(lower, db, steps[..n]);
      StepKeepsReserved(lower, After(lower, db, steps[..n]), steps[n]);
    }
  }

  lemma AcceptanceKeepsReserved(lower: string -> string, db: Db, s: Step)
    requires OnlyInvitable(db) && Accepts(lower, db, s)
    ensures var next := Apply(lower, db, s);
      && HoldersOfReserved(next) <= HoldersOfReserved(db) && next.users.Keys == db.users.Keys
      && forall u :: u in db.users && db.users[u].account == Suspended ==> next.users[u].account == Suspended
  {
    var next := Apply(lower, db, s);
    assert next.users == db.users[s.u := AcceptedUser(db.users[s.u], db.invitations[s.i])];
  }

  lemma StepKeepsInvitable(lower: string -> string, db: Db, s: Step)
    requires OnlyInvitable(db)
    ensures OnlyInvitable(Apply(lower, db, s))
  {
    var next := Apply(lower, db, s);
    forall i | i in next.invitations && next.invitations[i].status == Pending ensures !Reserved(next.invitations[i].role) {
      if s.DoInvite? {
        InviteIsInvitable(db, s, i);
      } else {
        StepOpensNone(lower, db, s);
      }
    }
  }

  lemma InviteIsInvitable(db: Db, s: Step, i: Id)
    requires s.DoInvite?
    requires var next := Invite(db, s.actor, s.email, s.phone, s.role, s.requested, s.passes, s.id, s.now, s.later);
      i in next.invitations && (i in db.invitations && db.invitations[i].status == Pending ==> !Reserved(db.invitations[i].role))
      && next.invitations[i].status == Pending
    ensures var next := Invite(db, s.actor, s.email, s.phone, s.role, s.requested, s.passes, s.id, s.now, s.later);
      !Reserved(next.invitations[i].role)
  {
  }

  lemma StepKeepsReserved(lower: string -> string, db: Db, s: Step)
    requires OnlyInvitable(db)
    ensures var next := Apply(lower, db, s);
      && OnlyInvitable(next) && HoldersOfReserved(next) <= HoldersOfReserved(db) && next.users.Keys == db.users.Keys
      && forall u :: u in db.users && db.users[u].account == Suspended ==> next.users[u].account == Suspended
  {
    StepKeepsInvitable(lower, db, s);
    if Accepts(lower, db, s) {
      AcceptanceKeepsReserved(lower, db, s);
    } else {
      assert Apply(lower, db, s).users == db.users;
    }
  }

  // ---------- what acceptance promises ----------

  /** Only the invitee's user changes, and only by accepting an open invitation. A suspension stays, no
      reserved role is gained, members stay and an accepted provider is one, and an accepted invitation can
      no longer be answered. */
  ghost predicate AcceptancePromise(lower: string -> string, db: Db, next: Db, s: Step) {
    && OnlyInvitable(next) && AllGrown(db, next) && HoldersOfReserved(next) <= HoldersOfReserved(db)
    && next.users.Keys == db.users.Keys
    && (forall v :: v in db.users && db.users[v].account == Suspended ==> next.users[v].account == Suspended)
    && (forall key :: ActiveMember(db, key) ==> ActiveMember(next, key))
    && (if Accepts(lower, db, s) then
          && (forall v :: v in db.users && v != s.u ==> next.users[v] == db.users[v])
          && Closed(lower, next, s.i)
          && (Joins(lower, db, s) ==> ActiveMember(next, (s.u, db.invitations[s.i].organizationId.value)))
        else next.users == db.users && next.memberships == db.memberships)
  }

  lemma AcceptanceKeepsPromise(lower: string -> string, db: Db, next: Db, s: Step)
    requires OnlyInvitable(db) && s.DoAccept? && next == Apply(lower, db, s)
    ensures AcceptancePromise(lower, db, next, s)
  {
    StepKeepsReserved(lower, db, s);
    StepAllGrown(lower, db, s);
    forall key | ActiveMember(db, key) ensures ActiveMember(next, key) {
      MembersStay(lower, db, s, key);
    }
    if Accepts(lower, db, s) {
      ResolvedIsClosed(lower, next, s.i);
    }
  }
}
