/** What a login leaves in a user's row, and why it is refused. */
module IdentityRows {
  import opened IdentitySafety
  import opened IdentityStore
  import opened Roles
  import opened Wrappers

  // ---------- verified identities ----------

  /** A status and a level go back to verified keys. */
  predicate Vouched(row: User) {
    && (row.identityStatus == PhoneVerified ==> row.phoneVerifiedAt.Some?)
    && (row.identityStatus == EmailVerified ==> row.emailVerifiedAt.Some?)
    && (row.phoneVerifiedAt.Some? ==> row.level >= 2) && (row.emailVerifiedAt.Some? ==> row.level >= 1)
  }

  predicate AllVouched(users: Users) {
    forall u :: u in users ==> Vouched(users[u])
  }

  lemma LoginKeepsVouched(users: Users, a: Attempt)
    requires Unique(users) && AllVouched(users)
    ensures AllVouched(Login(users, a))
  {
    var d := DecisionOf(users, a);
    if d.Update? {
      UpdatesExactly(users, a, d.id);
      UpdateIsUnique(users, a, d.id, d.row);
      assert Vouched(d.row);
    } else if d.Create? {
      CreatesExactly(users, a);
      assert Vouched(d.row);
    }
  }

  /** Over every run: who has a verified status has the time at which that key was verified, and who has a
      verified key has its level. */
  lemma {:induction false} VouchedOverRuns(users: Users, attempts: seq<Attempt>)
    requires Unique(users) && AllVouched(users)
    ensures AllVouched(After(users, attempts))
    decreases |attempts|
  {
    if attempts != [] {
      var before := attempts[..|attempts| - 1];
      VouchedOverRuns(users, before);
      EveryRunKeeps(users, before, |before|);
      LoginKeepsVouched(After(users, before), attempts[|before|]);
    }
  }

  // ---------- the row of a login ----------

  /** The time of a key: the one it had, else `now` when the key is claimed. */
  predicate Dated(before: Option<Instant>, claimed: bool, now: Instant, after: Option<Instant>) {
    if before.Some? then after == before else after == (if claimed then Some(now) else None)
  }

  /** What is left of an account without any key, as a first login finds it. */
  predicate Blank(row: User) {
    && row.phone.None? && row.email.None? && row.phoneVerifiedAt.None? && row.emailVerifiedAt.None?
    && row.identityStatus == Unverified && row.level == 0 && row.organizationId.None? && row.fullName == ""
  }

  /** A login of a user whose row was `was`, or blank. */
  ghost predicate Rewrites(was: User, a: Attempt, row: User) {
    && row.firebaseUid == Some(a.claims.uid) && row.role == Citizen && row.account == Active
    && row.phone == (if a.claims.phone.Some? then a.claims.phone else was.phone)
    && row.email == (if a.claims.email.Some? then a.claims.email else was.email)
    && Dated(was.phoneVerifiedAt, a.claims.phone.Some?, a.now, row.phoneVerifiedAt)
    && Dated(was.emailVerifiedAt, a.claims.email.Some?, a.now, row.emailVerifiedAt)
    && (was.identityStatus != Unverified ==> row.identityStatus == was.identityStatus)
    && (was.identityStatus == Unverified ==>
          (row.identityStatus == PhoneVerified <==> a.claims.phone.Some?)
          && (row.identityStatus == EmailVerified <==> a.claims.phone.None?))
    && was.level <= row.level && (row.level > was.level ==> row.level == if a.claims.phone.Some? then 2 else 1)
    && row.level >= (if a.claims.phone.Some? then 2 else 1)
    && row.organizationId == (if was.organizationId.Some? then was.organizationId else Some(a.org))
    && row.fullName != "" && (a.claims.name != "" ==> row.fullName == a.claims.name)
    && (a.claims.name == "" && was.fullName != "" ==> row.fullName == was.fullName)
    && (a.claims.name == "" && was.fullName == "" && a.claims.tokenName != "" ==> row.fullName == a.claims.tokenName)
  }

  /** A login writes one row: an unverified user becomes PHONE_VERIFIED exactly when a phone number is claimed
      and EMAIL_VERIFIED exactly when only an address is; levels, times, keys, organization and name follow the
      claims in the same way. */
  lemma LoginWrites(users: Users, a: Attempt, u: Id, was: User)
    requires Unique(users) && a.id !in users && LoggedIn(users, a) == Some(u)
    requires if u in users then was == users[u] else Blank(was)
    ensures var next := Login(users, a); u in next && next == users[u := next[u]] && Rewrites(was, a, next[u])
  {
    WriteNeverFails(users, a);
    var d := DecisionOf(users, a);
    if d.Update? {
      UpdatesExactly(users, a, u);
      UpdateIsUnique(users, a, u, d.row);
      assert Rewrites(was, a, d.row);
    } else {
      CreatesExactly(users, a);
      assert Rewrites(was, a, d.row);
    }
  }

  // ---------- refusals ----------

  /** The claims match two users. */
  ghost predicate Split(users: Users, c: Claims) {
    exists u, v :: u != v && Matches(users, u, c) && Matches(users, v, c)
  }

  /** The two keys are claimed and belong to different users. */
  ghost predicate Apart(users: Users, c: Claims, first: Key, other: Key) {
    exists u, v :: u != v && Has(users, u, first, ClaimOf(c, first)) && Has(users, v, other, ClaimOf(c, other))
  }

  /** A login is a conflict if and only if its claims match two users; the keys it names match different ones. */
  lemma ConflictsExactly(users: Users, a: Attempt)
    requires Unique(users)
    ensures var d := DecisionOf(users, a);
      && (d.Reject? && d.reason.Conflict? <==> WellFormed(a.claims) && Split(users, a.claims))
      && (d.Reject? && d.reason.Conflict? ==> Apart(users, a.claims, d.reason.first, d.reason.other))
  {
    var c := a.claims;
    var r := ReadsOf(users, c);
    if ConflictOf(r).Some? {
      ConflictingMatches(users, c);
      var u := r.First().value;
      var first, other := ConflictOf(r).value.first, ConflictOf(r).value.other;
      var v := if other == Phone then r.phone.value else r.email.value;
      assert Has(users, u, first, ClaimOf(c, first)) && Has(users, v, other, ClaimOf(c, other)) && u != v;
    } else {
      forall u: Id, v: Id | Matches(users, u, c) && Matches(users, v, c) ensures u == v {
        OneMatch(users, c, u);
        OneMatch(users, c, v);
      }
    }
  }

  predicate ActiveCitizen(row: User) {
    row.role == Citizen && row.account == Active
  }

  /** A registration claims the address that the user already has. */
  predicate RegistersAddress(c: Claims, row: User) {
    c.registering && c.email.Some? && row.email == c.email
  }

  /** Why the only user that the claims match is refused. */
  lemma RefusalsExactly(users: Users, a: Attempt, u: Id)
    requires Unique(users) && WellFormed(a.claims) && OnlyMatch(users, u, a.claims)
    ensures var d, row := DecisionOf(users, a), users[u];
      && (d == Reject(RoleBoundary) <==> row.role != Citizen)
      && (forall s :: d == Reject(Account(s)) <==> row.role == Citizen && row.account == s && s != Active)
      && (d == Reject(UidMismatch) <==> ActiveCitizen(row) && row.firebaseUid.Some? && row.firebaseUid != Some(a.claims.uid))
      && (d == RecoveryRequired <==> ActiveCitizen(row) && row.firebaseUid.None? && RegistersAddress(a.claims, row))
  {
    var c := a.claims;
    var r := ReadsOf(users, c);
    NoOwnerRejection(users, a);
    if ConflictOf(r).Some? { ConflictingMatches(users, c); }
    OneMatch(users, c, u);
    RegistrationGuard(users, c, u);
  }
}
