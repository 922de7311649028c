/** What every run of firebaseLogin keeps, one request at a time. */
module IdentitySafety {
  import opened IdentityStore
  import opened Roles
  import opened Wrappers

  datatype Attempt = Attempt(claims: Claims, org: Id, now: Instant, id: Id)

  ghost function DecisionOf(users: Users, a: Attempt): Decision {
    Decide(users, a.claims, a.org, a.now)
  }

  ghost function Login(users: Users, a: Attempt): Users {
    Write(users, DecisionOf(users, a), a.id).GetOr(users)
  }

  ghost function After(users: Users, attempts: seq<Attempt>): Users
    decreases |attempts|
  {
    if attempts == [] then users else Login(After(users, attempts[..|attempts| - 1]), attempts[|attempts| - 1])
  }

  // ---------- matching users ----------

  predicate Matches(users: Users, u: Id, c: Claims) {
    u in users && exists k :: ClaimOf(c, k).Some? && KeyOf(users[u], k) == ClaimOf(c, k)
  }

  ghost function ReadsOf(users: Users, c: Claims): Reads {
    Reads(Find(users, Uid, Some(c.uid)), Find(users, Phone, c.phone), Find(users, Email, c.email))
  }

  /** Without a conflict all matching users are one; with no first match there is none. */
  lemma OneMatch(users: Users, c: Claims, u: Id)
    requires Unique(users) && ConflictOf(ReadsOf(users, c)).None? && Matches(users, u, c)
    ensures ReadsOf(users, c).First() == Some(u)
  {
    var k :| ClaimOf(c, k).Some? && KeyOf(users[u], k) == ClaimOf(c, k);
    assert Has(users, u, k, ClaimOf(c, k));
    var found := Find(users, k, ClaimOf(c, k));
    assert found == Some(u) by {
      assert Found(users, k, ClaimOf(c, k), found);
    }
  }

  lemma FirstMatches(users: Users, c: Claims)
    requires ReadsOf(users, c).First().Some?
    ensures Matches(users, ReadsOf(users, c).First().value, c)
  {
    var r := ReadsOf(users, c);
    var u := r.First().value;
    if r.uid.Some? {
      assert Has(users, u, Uid, ClaimOf(c, Uid));
    } else if r.phone.Some? {
      assert Has(users, u, Phone, ClaimOf(c, Phone));
    } else {
      assert Has(users, u, Email, ClaimOf(c, Email));
    }
  }

  lemma ConflictingMatches(users: Users, c: Claims)
    requires ConflictOf(ReadsOf(users, c)).Some?
    ensures exists u, v :: u != v && Matches(users, u, c) && Matches(users, v, c)
  {
    var r := ReadsOf(users, c);
    FirstMatches(users, c);
    var u := r.First().value;
    if r.phone.Some? && r.phone != Some(u) {
      assert KeyOf(users[r.phone.value], Phone) == ClaimOf(c, Phone);
      assert Matches(users, r.phone.value, c);
    } else {
      assert KeyOf(users[r.email.value], Email) == ClaimOf(c, Email);
      assert Matches(users, r.email.value, c);
    }
  }

  /** Once all matches are one user, neither owner guard can fire. */
  lemma OwnerGuardsNeverFire(users: Users, c: Claims, k: Key)
    requires ConflictOf(ReadsOf(users, c)).None? && ReadsOf(users, c).First().Some? && k != Uid
    requires Unique(users)
    ensures ReadsOf(users, c).First().value in users
    ensures !OwnedByAnother(users, ReadsOf(users, c).First().value, k, ClaimOf(c, k))
  {
    FirstMatches(users, c);
    var owner := Find(users, k, ClaimOf(c, k));
    if owner.Some? {
      assert Matches(users, owner.value, c);
      OneMatch(users, c, owner.value);
    }
  }

  lemma NoOwnerRejection(users: Users, a: Attempt)
    requires Unique(users)
    ensures DecisionOf(users, a) != Reject(PhoneOwner) && DecisionOf(users, a) != Reject(EmailOwner)
  {
    var c := a.claims;
    var r := ReadsOf(users, c);
    if ConflictOf(r).None? && r.First().Some? {
      OwnerGuardsNeverFire(users, c, Phone);
      OwnerGuardsNeverFire(users, c, Email);
    }
  }

  // ---------- when a login succeeds ----------

  predicate WellFormed(c: Claims) {
    c.uid != "" && (c.phone.Some? || c.email.Some?)
  }

  /** The account may take this identity. */
  predicate MayLink(user: User, c: Claims) {
    && user.role == Citizen && user.account == Active
    && (user.firebaseUid.None? || user.firebaseUid == Some(c.uid))
    && !(c.registering && user.firebaseUid.None? && c.email.Some? && user.email == c.email)
  }

  ghost predicate OnlyMatch(users: Users, u: Id, c: Claims) {
    Matches(users, u, c) && forall v :: Matches(users, v, c) ==> v == u
  }

  /** A login updates user `u` if and only if `u` is the only user that any claim matches and may take
      the identity. */
  lemma UpdatesExactly(users: Users, a: Attempt, u: Id)
    requires Unique(users)
    ensures (exists row :: DecisionOf(users, a) == Update(u, row)) <==>
      WellFormed(a.claims) && OnlyMatch(users, u, a.claims) && MayLink(users[u], a.claims)
  {
    var c := a.claims;
    var r := ReadsOf(users, c);
    NoOwnerRejection(users, a);
    if ConflictOf(r).Some? {
      ConflictingMatches(users, c);
    } else {
      forall v: Id | Matches(users, v, c) ensures r.First() == Some(v) { OneMatch(users, c, v); }
      if r.First().Some? {
        FirstMatches(users, c);
        RegistrationGuard(users, c, r.First().value);
      }
    }
  }

  /** The recovery branch asks whether the e-mail matched; that is whether the user has it. */
  lemma RegistrationGuard(users: Users, c: Claims, u: Id)
    requires Unique(users) && ConflictOf(ReadsOf(users, c)).None? && ReadsOf(users, c).First() == Some(u) && u in users
    ensures ReadsOf(users, c).email.Some? <==> c.email.Some? && users[u].email == c.email
    ensures users[u].firebaseUid.None? ==> ReadsOf(users, c).uid.None?
  {
    var r := ReadsOf(users, c);
    if c.email.Some? && users[u].email == c.email {
      assert Has(users, u, Email, c.email);
    }
    assert Found(users, Uid, Some(c.uid), r.uid);
  }

  /** A login creates a user if and only if no claim matches anybody. */
  lemma CreatesExactly(users: Users, a: Attempt)
    requires Unique(users)
    ensures DecisionOf(users, a).Create? <==> WellFormed(a.claims) && forall v :: !Matches(users, v, a.claims)
  {
    var c := a.claims;
    var r := ReadsOf(users, c);
    if ConflictOf(r).Some? {
      ConflictingMatches(users, c);
    } else {
      forall v: Id | Matches(users, v, c) ensures r.First() == Some(v) { OneMatch(users, c, v); }
      if r.First().Some? { FirstMatches(users, c); }
    }
  }

  // ---------- what a login keeps ----------

  /** A linked account: the uid is bound for good, the level never drops, and times once set stay. */
  predicate Grown(a: User, b: User) {
    && (a.firebaseUid.Some? ==> b.firebaseUid == a.firebaseUid)
    && a.level <= b.level
    && (a.phoneVerifiedAt.Some? ==> b.phoneVerifiedAt == a.phoneVerifiedAt)
    && (a.emailVerifiedAt.Some? ==> b.emailVerifiedAt == a.emailVerifiedAt)
    && (a.identityStatus != Unverified ==> b.identityStatus == a.identityStatus)
    && (a.organizationId.Some? ==> b.organizationId == a.organizationId)
    && a.role == b.role && a.account == b.account
    && (a.role != Citizen || a.account != Active ==> b == a)
  }

  ghost predicate Kept(users: Users, next: Users) {
    forall u :: u in users ==> u in next && Grown(users[u], next[u])
  }

  /** No write breaks a unique key: the table's own indexes never have to refuse one. */
  lemma WriteNeverFails(users: Users, a: Attempt)
    requires Unique(users) && a.id !in users
    ensures Write(users, DecisionOf(users, a), a.id).Some?
  {
    var c := a.claims;
    var d := DecisionOf(users, a);
    if d.Create? {
      CreatesExactly(users, a);
      forall v, k | v in users && KeyOf(d.row, k).Some? ensures KeyOf(users[v], k) != KeyOf(d.row, k) {
        assert KeyOf(d.row, k) == ClaimOf(c, k);
        assert !Matches(users, v, c);
      }
    } else if d.Update? {
      UpdateIsUnique(users, a, d.id, d.row);
    }
  }

  lemma UpdateIsUnique(users: Users, a: Attempt, u: Id, row: User)
    requires Unique(users) && DecisionOf(users, a) == Update(u, row)
    ensures u in users && row == Linked(users[u], a.claims, a.org, a.now) && Unique(users[u := row])
  {
    var c := a.claims;
    UpdatesExactly(users, a, u);
    var next := users[u := row];
    assert row == Linked(users[u], c, a.org, a.now);
    forall v, k | v in users && v != u && KeyOf(row, k).Some? ensures KeyOf(users[v], k) != KeyOf(row, k) {
      if KeyOf(row, k) != KeyOf(users[u], k) {
        assert KeyOf(row, k) == ClaimOf(c, k);
        assert !Matches(users, v, c);
      }
    }
  }

  lemma LoginKeeps(users: Users, a: Attempt)
    requires Unique(users)
    ensures Unique(Login(users, a)) && Kept(users, Login(users, a))
  {
    var d := DecisionOf(users, a);
    if d.Update? {
      UpdatesExactly(users, a, d.id);
      UpdateIsUnique(users, a, d.id, d.row);
    }
  }

  /** Over every run the keys stay unique and no account loses what it had. */
  lemma {:induction false} EveryRunKeeps(users: Users, attempts: seq<Attempt>, i: nat)
    requires Unique(users) && i <= |attempts|
    ensures Unique(After(users, attempts)) && Kept(After(users, attempts[..i]), After(users, attempts))
    decreases |attempts|
  {
    if i == |attempts| {
      assert attempts[..i] == attempts;
    }
    if attempts != [] {
      var before := attempts[..|attempts| - 1];
      EveryRunKeeps(users, before, |before|);
      LoginKeeps(After(users, before), attempts[|attempts| - 1]);
      if i < |attempts| {
        EveryRunKeeps(users, before, i);
        assert before[..i] == attempts[..i];
        KeptTransitive(After(users, before[..i]), After(users, before), After(users, attempts));
      }
    }
  }

  lemma KeptTransitive(a: Users, b: Users, c: Users)
    requires Kept(a, b) && Kept(b, c)
    ensures Kept(a, c)
  {
  }

  /** Whom a login logs in. */
  ghost function LoggedIn(users: Users, a: Attempt): Option<Id> {
    match DecisionOf(users, a)
    case Update(u, _) => Some(u)
    case Create(_) => Some(a.id)
    case _ => None
  }

  /** A uid that is bound to a user before some attempt logs in only that user from then on. */
  lemma BoundUidIsStable(users: Users, attempts: seq<Attempt>, i: nat, a: Attempt, u: Id)
    requires Unique(users) && i <= |attempts| && u in After(users, attempts[..i])
    requires After(users, attempts[..i])[u].firebaseUid == Some(a.claims.uid)
    ensures LoggedIn(After(users, attempts), a) in {None, Some(u)}
  {
    var now := After(users, attempts);
    EveryRunKeeps(users, attempts, i);
    assert KeyOf(now[u], Uid) == ClaimOf(a.claims, Uid);
    assert Matches(now, u, a.claims);
    if LoggedIn(now, a).Some? {
      CreatesExactly(now, a);
      var d := DecisionOf(now, a);
      assert d.Update?;
      UpdatesExactly(now, a, d.id);
    }
  }

  /** The row has every claimed key and is an active citizen that linking again leaves as it is. */
  predicate Bound(row: User, c: Claims) {
    && row.firebaseUid == Some(c.uid) && row.role == Citizen && row.account == Active
    && (c.phone.Some? ==> row.phone == c.phone && row.phoneVerifiedAt.Some?)
    && (c.email.Some? ==> row.email == c.email && row.emailVerifiedAt.Some?)
    && row.identityStatus != Unverified && row.level == NextLevel(row.level, c)
    && row.organizationId.Some? && row.fullName == FullName(c, row.fullName)
  }

  lemma LoginBinds(users: Users, a: Attempt)
    requires Unique(users) && a.id !in users && LoggedIn(users, a).Some?
    ensures var u := LoggedIn(users, a).value; var next := Login(users, a);
      u in next && WellFormed(a.claims) && Bound(next[u], a.claims)
  {
    var u := LoggedIn(users, a).value;
    WriteNeverFails(users, a);
    if DecisionOf(users, a).Update? {
      UpdatesExactly(users, a, u);
      UpdateIsUnique(users, a, u, DecisionOf(users, a).row);
      assert Bound(Linked(users[u], a.claims, a.org, a.now), a.claims);
    } else {
      CreatesExactly(users, a);
      assert Bound(NewUser(a.claims, a.org, a.now), a.claims);
    }
  }

  lemma BoundLogsIn(users: Users, u: Id, a: Attempt)
    requires Unique(users) && u in users && WellFormed(a.claims) && Bound(users[u], a.claims)
    ensures LoggedIn(users, a) == Some(u) && Login(users, a) == users
  {
    OnlyOwnerMatches(users, u, a.claims);
    UpdatesExactly(users, a, u);
    assert Linked(users[u], a.claims, a.org, a.now) == users[u];
    assert users[u := users[u]] == users;
  }

  /** A user who logged in has every claimed key, and a login with the same claims logs in the same user
      and changes nothing. */
  lemma LoginAgain(users: Users, a: Attempt, b: Attempt)
    requires Unique(users) && a.id !in users && LoggedIn(users, a).Some? && b.claims == a.claims
    ensures var u := LoggedIn(users, a).value; var next := Login(users, a);
      && u in next && (forall k :: ClaimOf(a.claims, k).Some? ==> KeyOf(next[u], k) == ClaimOf(a.claims, k))
      && LoggedIn(next, b) == Some(u) && Login(next, b) == next
  {
    LoginBinds(users, a);
    LoginKeeps(users, a);
    BoundLogsIn(Login(users, a), LoggedIn(users, a).value, b);
  }

  lemma OnlyOwnerMatches(users: Users, u: Id, c: Claims)
    requires Unique(users) && u in users
    requires forall k :: ClaimOf(c, k).Some? ==> KeyOf(users[u], k) == ClaimOf(c, k)
    ensures OnlyMatch(users, u, c)
  {
    assert KeyOf(users[u], Uid) == ClaimOf(c, Uid);
  }

  // ---------- overlapping logins ----------

  lemma BothMayLink(users: Users, a: Attempt, u: Id)
    requires Unique(users) && users.Keys == {u} && MayLink(users[u], a.claims) && WellFormed(a.claims)
    requires Matches(users, u, a.claims)
    ensures DecisionOf(users, a) == Update(u, Linked(users[u], a.claims, a.org, a.now))
  {
    assert OnlyMatch(users, u, a.claims);
    UpdatesExactly(users, a, u);
    var row :| DecisionOf(users, a) == Update(u, row);
    UpdateIsUnique(users, a, u, row);
  }

  /** The writes of two logins that both read `users`, where `u` is the only user. */
  lemma BothWrite(users: Users, a: Attempt, b: Attempt, u: Id)
    requires Unique(users) && users.Keys == {u} && MayLink(users[u], a.claims) && MayLink(users[u], b.claims)
    requires WellFormed(a.claims) && WellFormed(b.claims) && Matches(users, u, a.claims) && Matches(users, u, b.claims)
    ensures var rowA, rowB := Linked(users[u], a.claims, a.org, a.now), Linked(users[u], b.claims, b.org, b.now);
      var first := Write(users, DecisionOf(users, a), a.id);
      first == Some(users[u := rowA]) && Write(first.value, DecisionOf(users, b), b.id) == Some(users[u := rowB])
  {
    BothMayLink(users, a, u);
    BothMayLink(users, b, u);
    var first := users[u := Linked(users[u], a.claims, a.org, a.now)];
    assert first.Keys == {u};
    assert Unique(first);
    var second := first[u := Linked(users[u], b.claims, b.org, b.now)];
    assert Unique(second);
    assert second == users[u := Linked(users[u], b.claims, b.org, b.now)];
  }

  /** When two logins with different uids both read the user before either writes, the second write
      replaces the uid that the first one bound. */
  lemma OverlappingLoginsRebind(users: Users, a: Attempt, b: Attempt, u: Id)
    requires Unique(users) && users.Keys == {u} && MayLink(users[u], a.claims) && MayLink(users[u], b.claims)
    requires users[u].firebaseUid.None? && users[u].phone.Some?
    requires WellFormed(a.claims) && WellFormed(b.claims) && a.claims.uid != b.claims.uid
    requires a.claims.phone == users[u].phone == b.claims.phone
    ensures var first := Write(users, DecisionOf(users, a), a.id);
      first.Some? && u in first.value && first.value[u].firebaseUid == Some(a.claims.uid)
      && var second := Write(first.value, DecisionOf(users, b), b.id);
      second.Some? && u in second.value && second.value[u].firebaseUid == Some(b.claims.uid)
  {
    assert KeyOf(users[u], Phone) == ClaimOf(a.claims, Phone) == ClaimOf(b.claims, Phone);
    BothWrite(users, a, b, u);
  }
}
