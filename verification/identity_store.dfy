/** Linking a verified Firebase identity to a citizen account. Users have three unique keys: the
    Firebase uid, the phone number and the e-mail address. */
module IdentityStore {
  import opened Roles
  import opened Wrappers

  type Id = nat
  type Instant = int

  datatype AccountStatus = PendingInvite | PendingApproval | Active | Suspended | Deactivated
  datatype IdentityStatus =
    | Unverified | PhoneVerified | EmailVerified | IdPending | IdVerified | FacePending | FaceVerified
    | AddressPending | AddressVerified | BusinessVerified | EnterpriseVerified

  datatype User = User(firebaseUid: Option<string>, phone: Option<string>, email: Option<string>,
                       phoneVerifiedAt: Option<Instant>, emailVerifiedAt: Option<Instant>,
                       identityStatus: IdentityStatus, level: int, role: Role, account: AccountStatus,
                       organizationId: Option<Id>, fullName: string)

  type Users = map<Id, User>

  /** What the verified token claims, trimmed; `email` is present only when the provider verified it.
      `name` is the name of the request and `tokenName` that of the token. */
  datatype Claims = Claims(uid: string, phone: Option<string>, email: Option<string>, registering: bool,
                           name: string, tokenName: string)

  datatype Key = Uid | Phone | Email

  datatype Reason =
    | Malformed | UnverifiedClaims | Conflict(first: Key, other: Key) | RoleBoundary | Account(status: AccountStatus)
    | UidMismatch | PhoneOwner | EmailOwner

  datatype Decision =
    | Reject(reason: Reason)
    | RecoveryRequired
    | Update(id: Id, row: User)
    | Create(row: User)

  function KeyOf(user: User, k: Key): Option<string> {
    match k
    case Uid => user.firebaseUid
    case Phone => user.phone
    case Email => user.email
  }

  function ClaimOf(c: Claims, k: Key): Option<string> {
    match k
    case Uid => Some(c.uid)
    case Phone => c.phone
    case Email => c.email
  }

  /** No two users share a key. */
  ghost predicate Unique(users: Users) {
    forall u, v, k :: u in users && v in users && u != v && KeyOf(users[u], k).Some? ==>
      KeyOf(users[u], k) != KeyOf(users[v], k)
  }

  predicate Has(users: Users, u: Id, k: Key, value: Option<string>) {
    u in users && value.Some? && KeyOf(users[u], k) == value
  }

  /** findUnique: the user with the key, if the key is given. */
  ghost predicate Found(users: Users, k: Key, value: Option<string>, r: Option<Id>) {
    match r
    case Some(u) => Has(users, u, k, value)
    case None => forall u :: !Has(users, u, k, value)
  }

  ghost function Find(users: Users, k: Key, value: Option<string>): (r: Option<Id>)
    ensures Found(users, k, value, r)
  {
    if exists u :: Has(users, u, k, value) then
      var u :| Has(users, u, k, value);
      Some(u)
    else None
  }

  /** The three reads at the start of a login. */
  datatype Reads = Reads(uid: Option<Id>, phone: Option<Id>, email: Option<Id>) {
    /** `??` over the three matches. */
    function First(): Option<Id> {
      if uid.Some? then uid else if phone.Some? then phone else email
    }
  }

  /** assertSameFirebaseCitizen: the keys of the first match and of the first match that is another user. */
  function ConflictOf(r: Reads): Option<Reason> {
    var first := if r.uid.Some? then Uid else Phone;
    var u := r.First();
    if u.None? then None
    else if r.phone.Some? && r.phone != u then Some(Conflict(first, Phone))
    else if r.email.Some? && r.email != u then Some(Conflict(first, Email))
    else None
  }

  function NextStatus(current: IdentityStatus, c: Claims): IdentityStatus {
    if current != Unverified then current
    else if c.phone.Some? then PhoneVerified
    else if c.email.Some? then EmailVerified
    else Unverified
  }

  function NextLevel(current: int, c: Claims): int {
    var claimed := if c.phone.Some? then 2 else if c.email.Some? then 1 else 0;
    if current > claimed then current else claimed
  }

  /** The first value that is present. */
  function Coalesce<T>(a: Option<T>, b: Option<T>): Option<T> {
    if a.Some? then a else b
  }

  function FullName(c: Claims, existing: string): string {
    if c.name != "" then c.name
    else if existing != "" then existing
    else if c.tokenName != "" then c.tokenName
    else "Citizen User"
  }

  function Linked(user: User, c: Claims, org: Id, now: Instant): User {
    user.(firebaseUid := Coalesce(user.firebaseUid, Some(c.uid)),
          phone := Coalesce(c.phone, user.phone),
          phoneVerifiedAt := if c.phone.Some? then Some(user.phoneVerifiedAt.GetOr(now)) else user.phoneVerifiedAt,
          identityStatus := NextStatus(user.identityStatus, c),
          level := NextLevel(user.level, c),
          email := Coalesce(c.email, user.email),
          emailVerifiedAt := if c.email.Some? then Some(user.emailVerifiedAt.GetOr(now)) else user.emailVerifiedAt,
          fullName := FullName(c, user.fullName),
          role := Citizen,
          organizationId := Some(user.organizationId.GetOr(org)))
  }

  function NewUser(c: Claims, org: Id, now: Instant): User {
    User(Some(c.uid), c.phone, c.email, if c.phone.Some? then Some(now) else None,
         if c.email.Some? then Some(now) else None, NextStatus(Unverified, c), NextLevel(0, c), Citizen, Active,
         Some(org), FullName(c, ""))
  }

  /** The phone_owner and email_owner guards: the key moves to `u`, but another user owns it. */
  ghost predicate OwnedByAnother(users: Users, u: Id, k: Key, claim: Option<string>)
    requires u in users
  {
    var current := KeyOf(users[u], k);
    && current.Some? && claim.Some? && current != claim
    && var owner := Find(users, k, claim); owner.Some? && owner.value != u
  }

  /** What firebaseLogin decides to write. */
  ghost function Decide(users: Users, c: Claims, org: Id, now: Instant): Decision {
    if c.uid == "" then Reject(Malformed)
    else if c.phone.None? && c.email.None? then Reject(UnverifiedClaims)
    else
      var r := Reads(Find(users, Uid, Some(c.uid)), Find(users, Phone, c.phone), Find(users, Email, c.email));
      var conflict := ConflictOf(r);
      if conflict.Some? then Reject(conflict.value)
      else if r.First().None? then Create(NewUser(c, org, now))
      else
        var u := r.First().value;
        var user := users[u];
        if user.role != Citizen then Reject(RoleBoundary)
        else if user.account != Active then Reject(Account(user.account))
        else if user.firebaseUid.Some? && user.firebaseUid != Some(c.uid) then Reject(UidMismatch)
        else if c.registering && r.email.Some? && user.firebaseUid.None? && r.uid.None? then RecoveryRequired
        else if OwnedByAnother(users, u, Phone, c.phone) then Reject(PhoneOwner)
        else if OwnedByAnother(users, u, Email, c.email) then Reject(EmailOwner)
        else Update(u, Linked(user, c, org, now))
  }

  /** The write: it fails when a unique index of the table would be broken. `id` is the next one. */
  ghost function Write(users: Users, d: Decision, id: Id): Option<Users> {
    match d
    case Update(u, row) =>
      if u in users && Unique(users[u := row]) then Some(users[u := row]) else None
    case Create(row) => if id !in users && Unique(users[id := row]) then Some(users[id := row]) else None
    case _ => Some(users)
  }
}
