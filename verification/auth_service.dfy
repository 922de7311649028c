/** firebaseLogin as a method over the table of users. */
module AuthService {
  import opened IdentityStore
  import opened IdentitySafety
  import opened Roles
  import opened Wrappers

  class AuthService {
    var users: map<Id, User>

    ghost predicate Valid()
      reads this
    {
      Unique(users)
    }

    /** findUnique, null when the key is null. */
    method FindUnique(k: Key, value: Option<string>) returns (r: Option<Id>)
      requires Valid()
      ensures r == Find(users, k, value)
    {
      r := None;
      if value.None? {
        return;
      }
      var rest := users.Keys;
      while rest != {} && r.None?
        invariant rest <= users.Keys
        invariant r.Some? ==> Has(users, r.value, k, value)
        invariant r.None? ==> forall u :: u in users && u !in rest ==> !Has(users, u, k, value)
        decreases rest
      {
        var u :| u in rest;
        if KeyOf(users[u], k) == value {
          r := Some(u);
        }
        rest := rest - {u};
      }
    }

    /** assertSameFirebaseCitizen over the matches in the order uid, phone, email. */
    method AssertSameFirebaseCitizen(r: Reads) returns (conflict: Option<Reason>)
      ensures conflict == ConflictOf(r)
    {
      var candidates := [(Uid, r.uid), (Phone, r.phone), (Email, r.email)];
      var first: Option<(Key, Id)> := None;
      conflict := None;
      for i := 0 to 3
        invariant first == if i >= 1 && r.uid.Some? then Some((Uid, r.uid.value))
                           else if i >= 2 && r.phone.Some? then Some((Phone, r.phone.value))
                           else if i >= 3 && r.email.Some? then Some((Email, r.email.value))
                           else None
        invariant i >= 2 && r.phone.Some? ==> r.phone.value == first.value.1
        invariant i >= 3 && r.email.Some? ==> r.email.value == first.value.1
      {
        var (key, user) := candidates[i];
        if user.Some? && first.None? {
          first := Some((key, user.value));
        }
        if user.Some? && user.value != first.value.1 {
          return Some(Conflict(first.value.0, key));
        }
      }
    }

    /** The decision of a login and its write; `id` is the id a new user would get. */
    method FirebaseLogin(a: Attempt) returns (loggedIn: Option<Id>, rejected: Option<Reason>)
      requires Valid() && a.id !in users
      modifies this`users
      ensures Valid() && users == Login(old(users), a)
      ensures loggedIn == LoggedIn(old(users), a)
      ensures rejected.Some? <==> DecisionOf(old(users), a).Reject?
      ensures rejected.Some? ==> rejected.value == DecisionOf(old(users), a).reason
    {
      var c := a.claims;
      LoginKeeps(users, a);
      WriteNeverFails(users, a);
      loggedIn, rejected := None, None;
      if c.uid == "" {
        return None, Some(Malformed);
      }
      if c.phone.None? && c.email.None? {
        return None, Some(UnverifiedClaims);
      }
      var byUid := FindUnique(Uid, Some(c.uid));
      var byPhone := FindUnique(Phone, c.phone);
      var byEmail := FindUnique(Email, c.email);
      var r := Reads(byUid, byPhone, byEmail);
      var conflict := AssertSameFirebaseCitizen(r);
      if conflict.Some? {
        return None, conflict;
      }
      var existing := r.First();
      if existing.None? {
        users := users[a.id := NewUser(c, a.org, a.now)];
        return Some(a.id), None;
      }
      var u := existing.value;
      FirstMatches(users, c);
      var user := users[u];
      if user.role != Citizen {
        return None, Some(RoleBoundary);
      }
      if user.account != Active {
        return None, Some(Account(user.account));
      }
      if user.firebaseUid.Some? && user.firebaseUid != Some(c.uid) {
        return None, Some(UidMismatch);
      }
      if c.registering && byEmail.Some? && user.firebaseUid.None? && byUid.None? {
        return None, None;
      }
      if user.phone.Some? && c.phone.Some? && user.phone != c.phone {
        var owner := FindUnique(Phone, c.phone);
        if owner.Some? && owner.value != u {
          return None, Some(PhoneOwner);
        }
      }
      if user.email.Some? && c.email.Some? && user.email != c.email {
        var owner := FindUnique(Email, c.email);
        if owner.Some? && owner.value != u {
          return None, Some(EmailOwner);
        }
      }
      users := users[u := Linked(user, c, a.org, a.now)];
      return Some(u), None;
    }
  }
}
