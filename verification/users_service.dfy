/** The invitation methods of UsersService over its tables. Each leaves the rows of the function of
    InvitationStore with the same role, and says what its caller can rely on. */
module UsersService {
  import opened InvitationSafety
  import opened InvitationStore
  import opened Roles
  import opened Wrappers

  class UsersService {
    const lower: string -> string
    var invitations: map<Id, Invitation>
    var users: map<Id, User>
    var memberships: map<(Id, Id), Membership>

    ghost function Rows(): Db
      reads this
    {
      Db(invitations, users, memberships)
    }

    /** No pending invitation is for SUPER_ADMIN or a governance role. */
    ghost predicate Valid()
      reads this
    {
      OnlyInvitable(Rows())
    }

    /** A new invitation is no duplicate of a live one of the organization and role. */
    method InviteUser(actor: Id, email: Option<string>, phone: Option<string>, role: Role, requested: Option<Id>, passes: bool,
                      id: Id, checked: Instant, created: Instant) returns (invited: bool)
      requires Valid() && id !in invitations
      modifies this`invitations
      ensures Valid()
      ensures Rows() == Invite(old(Rows()), actor, email, phone, role, requested, passes, id, checked, created)
      ensures !invited ==> invitations == old(invitations)
      ensures invited ==> id in invitations && invitations == old(invitations)[id := invitations[id]]
                          && !AnyDuplicate(old(Rows()), email, phone, role, invitations[id].organizationId, checked)
    {
      StepKeepsInvitable(lower, Rows(), DoInvite(actor, email, phone, role, requested, passes, id, checked, created));
      if actor !in users || !Invitable(users[actor], role) || !HasOrganization(users[actor]) {
        return false;
      }
      if (!Given(email) && !Given(phone)) || !passes {
        return false;
      }
      var org := OrganizationOf(users[actor], requested);
      if AnyDuplicate(Db(invitations, users, memberships), email, phone, role, org, checked) {
        return false;
      }
      invitations := invitations[id := Invitation(email, phone, role, org, Pending, Some(created + WEEK_MS), None)];
      return true;
    }

    /** A cancelled invitation can no longer be answered; resolved ones never change. */
    method CancelInvitation(actor: Id, i: Id, revoke: bool)
      requires Valid()
      modifies this`invitations
      ensures Valid()
      ensures Rows() == Cancel(old(Rows()), actor, i, revoke)
      ensures AllGrown(old(Rows()), Rows())
      ensures invitations != old(invitations) ==> Closed(lower, Rows(), i)
    {
      if actor !in users || i !in invitations || !InScope(users[actor], invitations[i]) {
        return;
      }
      if invitations[i].status != Pending {
        return;
      }
      invitations := invitations[i := invitations[i].(status := if revoke then Revoked else Cancelled)];
      ResolvedIsClosed(lower, Rows(), i);
    }

    /** Prolongs nothing; only an expired invitation in the actor's scope is closed, for good. */
    method ResendInvitation(actor: Id, i: Id, now: Instant) returns (resent: bool)
      requires Valid()
      modifies this`invitations
      ensures Valid()
      ensures Rows() == Resend(old(Rows()), actor, i, now)
      ensures AllGrown(old(Rows()), Rows())
      ensures NothingIsProlonged(old(invitations), invitations)
      ensures invitations != old(invitations) ==>
        i in old(invitations) && ExpiredAt(old(invitations)[i], now) && Closed(lower, Rows(), i)
      ensures resent ==> i in invitations && invitations[i].status == Pending && !ExpiredAt(invitations[i], now)
    {
      if actor !in users || i !in invitations || !InScope(users[actor], invitations[i]) {
        return false;
      }
      if invitations[i].status != Pending {
        return false;
      }
      if ExpiredAt(invitations[i], now) {
        invitations := invitations[i := invitations[i].(status := Expired)];
        ResolvedIsClosed(lower, Rows(), i);
        return false;
      }
      return true;
    }

    /** The user's pending invitations; those that have run out are closed. Nobody else's change. */
    method GetMyInvitations(email: Option<string>, phone: Option<string>, now: Instant) returns (mine: set<Id>)
      requires Valid()
      modifies this`invitations
      ensures Valid()
      ensures Rows() == Sweep(old(Rows()), email, phone, now)
      ensures AllGrown(old(Rows()), Rows())
      ensures NothingIsProlonged(old(invitations), invitations)
      ensures mine == set i | i in invitations && SentTo(invitations[i], email, phone)
      ensures forall i :: i in mine ==> invitations[i] == old(invitations)[i] && !ExpiredAt(invitations[i], now)
    {
      mine := SweepMine(email, phone, now);
      SweepGrows(old(Rows()), email, phone, now);
    }

    /** The loop of getMyInvitations. */
    method SweepMine(email: Option<string>, phone: Option<string>, now: Instant) returns (mine: set<Id>)
      modifies this`invitations
      ensures Rows() == Sweep(old(Rows()), email, phone, now)
      ensures mine == set i | i in invitations && SentTo(invitations[i], email, phone)
    {
      ghost var before := invitations;
      var found := set i | i in invitations && SentTo(invitations[i], email, phone);
      var rest := found;
      mine := {};
      while rest != {}
        invariant rest <= found <= invitations.Keys == before.Keys
        invariant forall i :: i in rest ==> invitations[i] == before[i]
        invariant forall i :: i in invitations && i !in rest ==> invitations[i] == Swept(before[i], email, phone, now)
        invariant mine == set i | i in found && i !in rest && !ExpiredAt(before[i], now)
        decreases rest
      {
        var i :| i in rest;
        rest := rest - {i};
        if ExpiredAt(invitations[i], now) {
          invitations := invitations[i := invitations[i].(status := Expired)];
        } else {
          mine := mine + {i};
        }
      }
    }

    method AcceptInvitation(u: Id, i: Id, now: Instant, later: Instant)
      requires Valid()
      modifies this`invitations, this`users, this`memberships
      ensures Valid()
      ensures Rows() == Accept(lower, old(Rows()), u, i, now, later)
      ensures AcceptancePromise(lower, old(Rows()), Rows(), DoAccept(u, i, now, later))
    {
      Answer(u, i, now, later);
      AcceptanceKeepsPromise(lower, old(Rows()), Rows(), DoAccept(u, i, now, later));
    }

    /** The checks and the transaction of acceptInvitation. */
    method Answer(u: Id, i: Id, now: Instant, later: Instant)
      modifies this`invitations, this`users, this`memberships
      ensures Rows() == Accept(lower, old(Rows()), u, i, now, later)
    {
      if u !in users || i !in invitations || !IsInvitee(lower, invitations[i], users[u]) {
        return;
      }
      var invitation := invitations[i];
      if invitation.status != Pending {
        return;
      }
      if ExpiredAt(invitation, now) {
        invitations := invitations[i := invitation.(status := Expired)];
        return;
      }
      if ExpiredAt(invitation, later) {
        return;
      }
      var user := users[u];
      var updated := user.(account := if user.account == Suspended then Suspended else Active);
      var providerMembershipOnly := user.role == Provider && invitation.role == Provider
        && invitation.organizationId.Some? && user.organizationId != invitation.organizationId;
      if invitation.organizationId.Some? && !providerMembershipOnly {
        updated := updated.(organizationId := invitation.organizationId);
      }
      if user.role != SuperAdmin && !providerMembershipOnly {
        updated := updated.(role := invitation.role);
      }
      users := users[u := updated];
      if invitation.role == Provider && invitation.organizationId.Some? {
        var isPrimary := user.organizationId == invitation.organizationId;
        memberships := memberships[(u, invitation.organizationId.value) := Membership(true, isPrimary)];
      }
      invitations := invitations[i := invitation.(status := Accepted, acceptedBy := Some(u))];
    }

    /** Only the invitee changes an invitation, which then can no longer be answered. */
    method DeclineInvitation(u: Id, i: Id, now: Instant)
      requires Valid()
      modifies this`invitations
      ensures Valid()
      ensures Rows() == Decline(lower, old(Rows()), u, i, now)
      ensures AllGrown(old(Rows()), Rows())
      ensures invitations != old(invitations) ==>
        u in users && i in old(invitations) && IsInvitee(lower, old(invitations)[i], users[u]) && Closed(lower, Rows(), i)
    {
      if u !in users || i !in invitations || !IsInvitee(lower, invitations[i], users[u]) {
        return;
      }
      if invitations[i].status != Pending {
        return;
      }
      var status := if ExpiredAt(invitations[i], now) then Expired else Declined;
      invitations := invitations[i := invitations[i].(status := status)];
      ResolvedIsClosed(lower, Rows(), i);
    }
  }
}
