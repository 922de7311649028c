/** firebaseLogin split at its database calls: any number of logins, each a thread that keeps what it has
    looked up, interleave between their reads and their write, and with administrative changes. */
module IdentityProtocol {
  import opened IdentitySafety
  import opened IdentityStore
  import opened Roles
  import opened Wrappers

  /** A row that a lookup returned, and the number of writes before it. */
  datatype Read = Read(id: Id, row: User, at: nat)

  datatype Thread =
    | Looking(a: Attempt, found: map<Key, Option<Read>>)
    | Creating(a: Attempt)
    | Linking(a: Attempt, read: Read, guarded: set<Key>)

  /** A write: the row it left. */
  datatype Commit = Commit(u: Id, row: User)

  datatype State = State(users: Users, threads: map<Id, Thread>, log: seq<Commit>)

  datatype Step =
    | Begin(t: Id, a: Attempt)
    | LookUp(t: Id, k: Key)
    | Choose(t: Id)
    | Guard(t: Id, k: Key)
    | WriteLogin(t: Id)
    | Administer(u: Id, role: Role, account: AccountStatus)

  function IdOf(r: Option<Read>): Option<Id> {
    if r.Some? then Some(r.value.id) else None
  }

  function FirstRead(found: map<Key, Option<Read>>): Option<Read>
    requires Uid in found && Phone in found && Email in found
  {
    Coalesce(found[Uid], Coalesce(found[Phone], found[Email]))
  }

  /** The checks on the rows that were looked up let the login link `read`. */
  predicate MayProceed(a: Attempt, found: map<Key, Option<Read>>, read: Read)
    requires Uid in found && Phone in found && Email in found
  {
    && ConflictOf(Reads(IdOf(found[Uid]), IdOf(found[Phone]), IdOf(found[Email]))).None?
    && read.row.role == Citizen && read.row.account == Active
    && (read.row.firebaseUid.None? || read.row.firebaseUid == Some(a.claims.uid))
    && !(a.claims.registering && found[Email].Some? && found[Email].value.row.firebaseUid.None? && found[Uid].None?)
  }

  /** phone_owner and email_owner: the key that was read moves, but another user owns it by now. */
  ghost predicate OwnedNow(users: Users, read: Read, k: Key, claim: Option<string>) {
    var current := KeyOf(read.row, k);
    && current.Some? && claim.Some? && current != claim
    && var owner := Find(users, k, claim); owner.Some? && owner.value != read.id
  }

  /** The columns that the update writes come from the row that was read; the account status stays. */
  function Merged(current: User, a: Attempt, read: Read): User {
    Linked(read.row, a.claims, a.org, a.now).(account := current.account)
  }

  function Without(s: State, t: Id): State {
    s.(threads := s.threads - {t})
  }

  function Committed(s: State, t: Id, u: Id, row: User): State {
    State(s.users[u := row], s.threads - {t}, s.log + [Commit(u, row)])
  }

  /** One database call, or a decision between two; None when it cannot happen. A write that would break a
      unique key fails and ends its login. */
  ghost function Next(s: State, step: Step): Option<State> {
    match step
    case Begin(t, a) =>
      if t in s.threads || !WellFormed(a.claims) then None else Some(s.(threads := s.threads[t := Looking(a, map[])]))
    case LookUp(t, k) =>
      if t !in s.threads || !s.threads[t].Looking? || k in s.threads[t].found then None
      else
        var th := s.threads[t];
        var u := Find(s.users, k, ClaimOf(th.a.claims, k));
        var r := if u.Some? then Some(Read(u.value, s.users[u.value], |s.log|)) else None;
        Some(s.(threads := s.threads[t := th.(found := th.found[k := r])]))
    case Choose(t) =>
      if t !in s.threads || !s.threads[t].Looking?
         || Uid !in s.threads[t].found || Phone !in s.threads[t].found || Email !in s.threads[t].found then None
      else
        var th := s.threads[t];
        var first := FirstRead(th.found);
        if first.None? then Some(s.(threads := s.threads[t := Creating(th.a)]))
        else if MayProceed(th.a, th.found, first.value)
        then Some(s.(threads := s.threads[t := Linking(th.a, first.value, {})]))
        else Some(Without(s, t))
    case Guard(t, k) =>
      if t !in s.threads || !s.threads[t].Linking? || k == Uid then None
      else
        var th := s.threads[t];
        if OwnedNow(s.users, th.read, k, ClaimOf(th.a.claims, k)) then Some(Without(s, t))
        else Some(s.(threads := s.threads[t := th.(guarded := th.guarded + {k})]))
    case WriteLogin(t) =>
      if t !in s.threads then None else WriteOf(s, t, s.threads[t])
    case Administer(u, role, account) =>
      if u !in s.users then None
      else
        var row := s.users[u].(role := role, account := account);
        Some(s.(users := s.users[u := row], log := s.log + [Commit(u, row)]))
  }

  ghost function WriteOf(s: State, t: Id, th: Thread): Option<State> {
    match th
    case Looking(_, _) => None
    case Creating(a) =>
      var row := NewUser(a.claims, a.org, a.now);
      if a.id !in s.users && Unique(s.users[a.id := row]) then Some(Committed(s, t, a.id, row)) else Some(Without(s, t))
    case Linking(a, read, guarded) =>
      if guarded != {Phone, Email} || read.id !in s.users then None
      else
        var row := Merged(s.users[read.id], a, read);
        if Unique(s.users[read.id := row]) then Some(Committed(s, t, read.id, row)) else Some(Without(s, t))
  }

  ghost function Run(s: State, steps: seq<Step>): Option<State>
    decreases |steps|
  {
    if steps == [] then Some(s)
    else
      var r := Run(s, steps[..|steps| - 1]);
      if r.None? then None else Next(r.value, steps[|steps| - 1])
  }

  ghost predicate Initial(s: State) {
    Unique(s.users) && s.threads == map[] && s.log == []
  }

  ghost predicate Reachable(s: State) {
    exists s0, steps :: Initial(s0) && Run(s0, steps) == Some(s)
  }

  // ---------- what holds in every interleaving ----------

  /** The row that the last of some writes to a user left. */
  function LastRow(log: seq<Commit>, u: Id): Option<User>
    decreases |log|
  {
    if log == [] then None
    else if log[|log| - 1].u == u then Some(log[|log| - 1].row)
    else LastRow(log[..|log| - 1], u)
  }

  /** A row that was read is the present one, but for the writes since. */
  ghost predicate ReadOk(s: State, r: Read) {
    r.at <= |s.log| && r.id in s.users && s.users[r.id] == LastRow(s.log[r.at..], r.id).GetOr(r.row)
  }

  ghost predicate ThreadOk(s: State, th: Thread) {
    match th
    case Looking(_, found) => forall k :: k in found && found[k].Some? ==> ReadOk(s, found[k].value)
    case Creating(_) => true
    case Linking(_, read, _) => ReadOk(s, read) && read.row.role == Citizen
  }

  ghost predicate Inv(s: State) {
    Unique(s.users) && forall t :: t in s.threads ==> ThreadOk(s, s.threads[t])
  }

  lemma ReadStays(s: State, next: State, u: Id, row: User, r: Read)
    requires ReadOk(s, r) && next.users == s.users[u := row] && next.log == s.log + [Commit(u, row)]
    ensures ReadOk(next, r)
  {
    var since, w := s.log[r.at..], Commit(u, row);
    assert next.log[r.at..] == since + [w];
    assert (since + [w])[..|since|] == since;
  }

  lemma ThreadStays(s: State, next: State, u: Id, row: User, th: Thread)
    requires ThreadOk(s, th) && next.users == s.users[u := row] && next.log == s.log + [Commit(u, row)]
    ensures ThreadOk(next, th)
  {
    match th
    case Looking(_, found) =>
      forall k | k in found && found[k].Some? ensures ReadOk(next, found[k].value) {
        ReadStays(s, next, u, row, found[k].value);
      }
    case Creating(_) =>
    case Linking(_, read, _) => ReadStays(s, next, u, row, read);
  }

  lemma WriteKeepsInv(s: State, next: State, u: Id, row: User)
    requires Inv(s) && next.users == s.users[u := row] && next.log == s.log + [Commit(u, row)] && Unique(next.users)
    requires forall t :: t in next.threads ==> t in s.threads && next.threads[t] == s.threads[t]
    ensures Inv(next)
  {
    forall t | t in next.threads ensures ThreadOk(next, next.threads[t]) {
      ThreadStays(s, next, u, row, s.threads[t]);
    }
  }

  lemma QuietKeepsInv(s: State, next: State, t: Id)
    requires Inv(s) && next.users == s.users && next.log == s.log
    requires forall x :: x in next.threads && x != t ==> x in s.threads && next.threads[x] == s.threads[x]
    requires t in next.threads ==> ThreadOk(s, next.threads[t])
    ensures Inv(next)
  {
    forall x | x in next.threads ensures ThreadOk(next, next.threads[x]) {
      assert ThreadOk(s, next.threads[x]);
    }
  }

  lemma LookUpKeepsInv(s: State, step: Step)
    requires Inv(s) && step.LookUp? && Next(s, step).Some?
    ensures Inv(Next(s, step).value)
  {
    var th, next := s.threads[step.t], Next(s, step).value;
    var u := Find(s.users, step.k, ClaimOf(th.a.claims, step.k));
    if u.Some? {
      assert s.log[|s.log|..] == [];
      assert ReadOk(s, Read(u.value, s.users[u.value], |s.log|));
    }
    assert ThreadOk(s, th);
    QuietKeepsInv(s, next, step.t);
  }

  lemma SameKeysStayUnique(users: Users, u: Id, row: User)
    requires Unique(users) && u in users && forall k :: KeyOf(row, k) == KeyOf(users[u], k)
    ensures Unique(users[u := row])
  {
    var next := users[u := row];
    forall v, w, k | v in next && w in next && v != w && KeyOf(next[v], k).Some? ensures KeyOf(next[v], k) != KeyOf(next[w], k) {
      assert KeyOf(next[v], k) == KeyOf(users[v], k) && KeyOf(next[w], k) == KeyOf(users[w], k);
    }
  }

  lemma StepKeepsInv(s: State, step: Step)
    requires Inv(s) && Next(s, step).Some?
    ensures Inv(Next(s, step).value)
  {
    var next := Next(s, step).value;
    match step
    case LookUp(t, k) => LookUpKeepsInv(s, step);
    case Administer(u, role, account) =>
      var row := s.users[u].(role := role, account := account);
      SameKeysStayUnique(s.users, u, row);
      WriteKeepsInv(s, next, u, row);
    case WriteLogin(t) =>
      if next.log != s.log {
        var w := next.log[|s.log|];
        WriteKeepsInv(s, next, w.u, w.row);
      } else {
        QuietKeepsInv(s, next, t);
      }
    case Begin(t, a) => QuietKeepsInv(s, next, t);
    case Choose(t) =>
      assert ThreadOk(s, s.threads[t]);
      QuietKeepsInv(s, next, t);
    case Guard(t, k) =>
      assert ThreadOk(s, s.threads[t]);
      QuietKeepsInv(s, next, t);
  }

  lemma {:induction false} InvOverRun(s: State, steps: seq<Step>)
    requires Inv(s) && Run(s, steps).Some?
    ensures Inv(Run(s, steps).value)
    decreases |steps|
  {
    if steps != [] {
      InvOverRun(s, steps[..|steps| - 1]);
      StepKeepsInv(Run(s, steps[..|steps| - 1]).value, steps[|steps| - 1]);
    }
  }

  lemma ReachableIsInv(s: State)
    requires Reachable(s)
    ensures Inv(s)
  {
    var s0, steps :| Initial(s0) && Run(s0, steps) == Some(s);
    InvOverRun(s0, steps);
  }

  /** In every interleaving no two users share a uid, a phone number or an address. */
  lemma KeysStayUnique(s: State)
    requires Reachable(s)
    ensures Unique(s.users)
  {
    ReachableIsInv(s);
  }

  // ---------- what a write can take away ----------

  /** The later row has all that the earlier one had: uid, level, times, status, organization, role and
      account. */
  predicate Keeps(a: User, b: User) {
    && (a.firebaseUid.Some? ==> b.firebaseUid == a.firebaseUid)
    && a.level <= b.level
    && (a.phoneVerifiedAt.Some? ==> b.phoneVerifiedAt == a.phoneVerifiedAt)
    && (a.emailVerifiedAt.Some? ==> b.emailVerifiedAt == a.emailVerifiedAt)
    && (a.identityStatus != Unverified ==> b.identityStatus == a.identityStatus)
    && (a.organizationId.Some? ==> b.organizationId == a.organizationId)
    && a.role == b.role && a.account == b.account
  }

  /** A time that was set is not the one that a login writes: the one it read, else `now` if it claims the
      key. */
  predicate TimeLost(set_: Option<Instant>, read: Option<Instant>, claimed: bool, now: Instant) {
    set_.Some? && set_ != if claimed then Some(read.GetOr(now)) else read
  }

  /** What was committed in between is more than the login, which read `seen`, knows of: another uid, a
      higher level, an earlier time, another status or organization, or a role other than citizen. */
  predicate Outdated(a: Attempt, seen: User, committed: User) {
    || (committed.firebaseUid.Some? && committed.firebaseUid != Coalesce(seen.firebaseUid, Some(a.claims.uid)))
    || committed.level > NextLevel(seen.level, a.claims)
    || TimeLost(committed.phoneVerifiedAt, seen.phoneVerifiedAt, a.claims.phone.Some?, a.now)
    || TimeLost(committed.emailVerifiedAt, seen.emailVerifiedAt, a.claims.email.Some?, a.now)
    || (committed.identityStatus != Unverified && committed.identityStatus != NextStatus(seen.identityStatus, a.claims))
    || (committed.organizationId.Some? && committed.organizationId != Some(seen.organizationId.GetOr(a.org)))
    || committed.role != Citizen
  }

  /** The write of a login that commits to an existing user. */
  predicate Links(s: State, step: Step, next: State) {
    step.WriteLogin? && step.t in s.threads && s.threads[step.t].Linking? && next.log != s.log
  }

  lemma LinkedKeeps(a: Attempt, seen: User)
    requires seen.role == Citizen
    ensures Keeps(seen, Linked(seen, a.claims, a.org, a.now))
  {
  }

  /** The exact condition over all interleavings: a login's write takes something away from its user if and
      only if another write to that user was committed between its read and its write, and the last one
      left what this login does not know of. */
  lemma WriteTakesAwayExactly(s: State, step: Step)
    requires Reachable(s) && Next(s, step).Some? && Links(s, step, Next(s, step).value)
    ensures var th, next := s.threads[step.t], Next(s, step).value;
      && th.read.at <= |s.log| && th.read.id in s.users && th.read.id in next.users
      && var between := LastRow(s.log[th.read.at..], th.read.id);
      !Keeps(s.users[th.read.id], next.users[th.read.id]) <==> between.Some? && Outdated(th.a, th.read.row, between.value)
  {
    ReachableIsInv(s);
    var th := s.threads[step.t];
    assert ThreadOk(s, th);
    LinkedKeeps(th.a, th.read.row);
  }

  /** The part about uids: a bound uid is replaced if and only if the last write in between had bound the
      account to another uid than this login writes, which is the one it read, or else the claimed one. */
  lemma BoundUidReplacedExactly(s: State, step: Step)
    requires Reachable(s) && Next(s, step).Some? && Links(s, step, Next(s, step).value)
    ensures var th, next := s.threads[step.t], Next(s, step).value; var u := th.read.id;
      && th.read.at <= |s.log| && u in s.users && u in next.users
      && var between := LastRow(s.log[th.read.at..], u);
      s.users[u].firebaseUid.Some? && next.users[u].firebaseUid != s.users[u].firebaseUid <==>
        between.Some? && between.value.firebaseUid.Some?
        && between.value.firebaseUid != Coalesce(th.read.row.firebaseUid, Some(th.a.claims.uid))
  {
    ReachableIsInv(s);
    assert ThreadOk(s, s.threads[step.t]);
  }

  /** What a caller can ensure: when no other write to the user is committed between a login's read and its
      write, the login takes nothing away. */
  lemma UndisturbedLoginKeeps(s: State, step: Step)
    requires Reachable(s) && Next(s, step).Some? && Links(s, step, Next(s, step).value)
    requires var r := s.threads[step.t].read; r.at <= |s.log| ==> forall w :: w in s.log[r.at..] ==> w.u != r.id
    ensures var u, next := s.threads[step.t].read.id, Next(s, step).value;
      u in s.users && u in next.users && Keeps(s.users[u], next.users[u])
  {
    WriteTakesAwayExactly(s, step);
    var r := s.threads[step.t].read;
    NoRow(s.log[r.at..], r.id);
  }

  lemma {:induction false} NoRow(log: seq<Commit>, u: Id)
    requires forall w :: w in log ==> w.u != u
    ensures LastRow(log, u).None?
    decreases |log|
  {
    if log != [] {
      assert log[|log| - 1] in log;
      assert forall w :: w in log[..|log| - 1] ==> w in log;
      NoRow(log[..|log| - 1], u);
    }
  }

  /** A login never writes the account status, and it changes no user but its own. */
  lemma OthersAreUntouched(s: State, step: Step, v: Id)
    requires Next(s, step).Some? && step.WriteLogin? && v in s.users
    ensures var next := Next(s, step).value;
      v in next.users && next.users[v].account == s.users[v].account
      && (step.t in s.threads && (s.threads[step.t].Creating? || s.threads[step.t].read.id != v) ==> next.users[v] == s.users[v])
  {
  }

  // ---------- a run in which the later write takes something away ----------

  lemma OneMore(s: State, steps: seq<Step>, step: Step)
    requires Run(s, steps).Some?
    ensures Run(s, steps + [step]) == Next(Run(s, steps).value, step)
  {
    assert (steps + [step])[..|steps|] == steps;
  }

  lemma {:induction false} RunConcat(s: State, a: seq<Step>, b: seq<Step>)
    requires Run(s, a).Some?
    ensures Run(s, a + b) == Run(Run(s, a).value, b)
    decreases |b|
  {
    if b == [] {
      assert a + b == a;
    } else {
      var ab := a + b;
      assert ab[..|ab| - 1] == a + b[..|b| - 1] && ab[|ab| - 1] == b[|b| - 1];
      RunConcat(s, a, b[..|b| - 1]);
    }
  }

  /** Everything of a login but its write. */
  function Lookups(t: Id, a: Attempt): seq<Step> {
    [] + [Begin(t, a)] + [LookUp(t, Uid)] + [LookUp(t, Phone)] + [LookUp(t, Email)]
  }

  lemma FindOnly(users: Users, u: Id, k: Key, claim: Option<string>)
    requires users.Keys == {u}
    ensures Find(users, k, claim) == if Has(users, u, k, claim) then Some(u) else None
  {
    var r := Find(users, k, claim);
    assert Found(users, k, claim, r);
  }

  function ReadOf(s: State, u: Id, k: Key, claim: Option<string>): Option<Read> {
    if Has(s.users, u, k, claim) then Some(Read(u, s.users[u], |s.log|)) else None
  }

  /** The state with thread `t` set. */
  function At(s: State, t: Id, th: Thread): State {
    s.(threads := s.threads[t := th])
  }

  lemma SetAgain(s: State, t: Id, x: Thread, y: Thread)
    ensures At(At(s, t, x), t, y) == At(s, t, y)
  {
  }

  lemma LooksUpKey(s: State, t: Id, a: Attempt, found: map<Key, Option<Read>>, u: Id, k: Key)
    requires s.users.Keys == {u} && k !in found
    ensures Next(At(s, t, Looking(a, found)), LookUp(t, k))
      == Some(At(s, t, Looking(a, found[k := ReadOf(s, u, k, ClaimOf(a.claims, k))])))
  {
    FindOnly(s.users, u, k, ClaimOf(a.claims, k));
    SetAgain(s, t, Looking(a, found), Looking(a, found[k := ReadOf(s, u, k, ClaimOf(a.claims, k))]));
  }

  function AllReads(s: State, u: Id, c: Claims): map<Key, Option<Read>> {
    map[][Uid := ReadOf(s, u, Uid, ClaimOf(c, Uid))][Phone := ReadOf(s, u, Phone, ClaimOf(c, Phone))]
    [Email := ReadOf(s, u, Email, ClaimOf(c, Email))]
  }

  lemma LooksUp(s: State, t: Id, a: Attempt, u: Id)
    requires t !in s.threads && WellFormed(a.claims) && s.users.Keys == {u}
    ensures Run(s, Lookups(t, a)) == Some(At(s, t, Looking(a, AllReads(s, u, a.claims))))
  {
    var none: map<Key, Option<Read>> := map[];
    var one := none[Uid := ReadOf(s, u, Uid, ClaimOf(a.claims, Uid))];
    var two := one[Phone := ReadOf(s, u, Phone, ClaimOf(a.claims, Phone))];
    LooksUpKey(s, t, a, none, u, Uid);
    LooksUpKey(s, t, a, one, u, Phone);
    LooksUpKey(s, t, a, two, u, Email);
    OneMore(s, [], Begin(t, a));
    OneMore(s, [] + [Begin(t, a)], LookUp(t, Uid));
    OneMore(s, [] + [Begin(t, a)] + [LookUp(t, Uid)], LookUp(t, Phone));
    OneMore(s, [] + [Begin(t, a)] + [LookUp(t, Uid)] + [LookUp(t, Phone)], LookUp(t, Email));
  }

  function Decisions(t: Id): seq<Step> {
    [] + [Choose(t)] + [Guard(t, Phone)] + [Guard(t, Email)]
  }

  lemma Chooses(s: State, t: Id, a: Attempt, u: Id)
    requires s.users.Keys == {u} && MayLink(s.users[u], a.claims) && Matches(s.users, u, a.claims)
    ensures Next(At(s, t, Looking(a, AllReads(s, u, a.claims))), Choose(t))
      == Some(At(s, t, Linking(a, Read(u, s.users[u], |s.log|), {})))
  {
    var read, found := Read(u, s.users[u], |s.log|), AllReads(s, u, a.claims);
    var k :| ClaimOf(a.claims, k).Some? && KeyOf(s.users[u], k) == ClaimOf(a.claims, k);
    assert found[k] == Some(read);
    assert FirstRead(found) == Some(read);
    assert MayProceed(a, found, read);
    SetAgain(s, t, Looking(a, found), Linking(a, read, {}));
  }

  lemma PassesGuard(s: State, t: Id, a: Attempt, u: Id, guarded: set<Key>, k: Key)
    requires s.users.Keys == {u} && k != Uid
    ensures var read := Read(u, s.users[u], |s.log|);
      Next(At(s, t, Linking(a, read, guarded)), Guard(t, k)) == Some(At(s, t, Linking(a, read, guarded + {k})))
  {
    var read := Read(u, s.users[u], |s.log|);
    FindOnly(s.users, u, k, ClaimOf(a.claims, k));
    SetAgain(s, t, Linking(a, read, guarded), Linking(a, read, guarded + {k}));
  }

  lemma Decides(s: State, t: Id, a: Attempt, u: Id)
    requires s.users.Keys == {u} && MayLink(s.users[u], a.claims) && Matches(s.users, u, a.claims)
    ensures Run(At(s, t, Looking(a, AllReads(s, u, a.claims))), Decisions(t))
      == Some(At(s, t, Linking(a, Read(u, s.users[u], |s.log|), {Phone, Email})))
  {
    var s0 := At(s, t, Looking(a, AllReads(s, u, a.claims)));
    Chooses(s, t, a, u);
    PassesGuard(s, t, a, u, {}, Phone);
    PassesGuard(s, t, a, u, {} + {Phone}, Email);
    OneMore(s0, [], Choose(t));
    OneMore(s0, [] + [Choose(t)], Guard(t, Phone));
    OneMore(s0, [] + [Choose(t)] + [Guard(t, Phone)], Guard(t, Email));
    assert {} + {Phone} + {Email} == {Phone, Email};
  }

  lemma Prepares(s: State, t: Id, a: Attempt, u: Id)
    requires t !in s.threads && WellFormed(a.claims) && s.users.Keys == {u}
    requires MayLink(s.users[u], a.claims) && Matches(s.users, u, a.claims)
    ensures Run(s, Lookups(t, a) + Decisions(t)) == Some(At(s, t, Linking(a, Read(u, s.users[u], |s.log|), {Phone, Email})))
  {
    LooksUp(s, t, a, u);
    RunConcat(s, Lookups(t, a), Decisions(t));
    Decides(s, t, a, u);
  }

  lemma Commits(s: State, t: Id, a: Attempt, u: Id, read: Read)
    requires s.users.Keys == {u} && t in s.threads && s.threads[t] == Linking(a, read, {Phone, Email}) && read.id == u
    requires s.users[u].account == Linked(read.row, a.claims, a.org, a.now).account
    ensures Next(s, WriteLogin(t)) == Some(Committed(s, t, u, Linked(read.row, a.claims, a.org, a.now)))
  {
    OnlyUserIsUnique(s.users[u := Linked(read.row, a.claims, a.org, a.now)], u);
  }

  lemma OnlyUserIsUnique(users: Users, u: Id)
    requires users.Keys == {u}
    ensures Unique(users)
  {
  }

  /** Both logins of a user read before either writes. */
  function Overlap(a: Attempt, b: Attempt): seq<Step> {
    (Lookups(0, a) + Decisions(0)) + (Lookups(1, b) + Decisions(1)) + [WriteLogin(0)] + [WriteLogin(1)]
  }

  lemma OverlapWrites(s: State, a: Attempt, b: Attempt, u: Id)
    requires Initial(s) && s.users.Keys == {u} && WellFormed(a.claims) && WellFormed(b.claims)
    requires MayLink(s.users[u], a.claims) && Matches(s.users, u, a.claims)
    requires MayLink(s.users[u], b.claims) && Matches(s.users, u, b.claims)
    ensures var row := s.users[u]; var r := Run(s, Overlap(a, b));
      var rowA, rowB := Linked(row, a.claims, a.org, a.now), Linked(row, b.claims, b.org, b.now);
      r.Some? && r.value.log == [Commit(u, rowA), Commit(u, rowB)] && r.value.users == map[u := rowB]
  {
    var row := s.users[u];
    var rowA, rowB := Linked(row, a.claims, a.org, a.now), Linked(row, b.claims, b.org, b.now);
    var readA, readB := Lookups(0, a) + Decisions(0), Lookups(1, b) + Decisions(1);
    var read := Read(u, row, 0);
    var s2 := At(At(s, 0, Linking(a, read, {Phone, Email})), 1, Linking(b, read, {Phone, Email}));
    BothRead(s, a, b, u);
    BothCommit(s2, a, b, u, read, rowA, rowB);
    OneMore(s, readA + readB, WriteLogin(0));
    OneMore(s, readA + readB + [WriteLogin(0)], WriteLogin(1));
  }

  lemma BothCommit(s: State, a: Attempt, b: Attempt, u: Id, read: Read, rowA: User, rowB: User)
    requires s.users.Keys == {u} && read.id == u && {0, 1} <= s.threads.Keys && s.log == []
    requires s.threads[0] == Linking(a, read, {Phone, Email}) && s.threads[1] == Linking(b, read, {Phone, Email})
    requires rowA == Linked(read.row, a.claims, a.org, a.now) && rowB == Linked(read.row, b.claims, b.org, b.now)
    requires s.users[u].account == rowA.account == rowB.account
    ensures Next(s, WriteLogin(0)) == Some(Committed(s, 0, u, rowA))
    ensures var r := Next(Committed(s, 0, u, rowA), WriteLogin(1));
      r.Some? && r.value.log == [Commit(u, rowA), Commit(u, rowB)] && r.value.users == map[u := rowB]
  {
    Commits(s, 0, a, u, read);
    var next := Committed(s, 0, u, rowA);
    Commits(next, 1, b, u, read);
    assert next.users[u := rowB] == map[u := rowB];
  }

  lemma BothRead(s: State, a: Attempt, b: Attempt, u: Id)
    requires Initial(s) && s.users.Keys == {u} && WellFormed(a.claims) && WellFormed(b.claims)
    requires MayLink(s.users[u], a.claims) && Matches(s.users, u, a.claims)
    requires MayLink(s.users[u], b.claims) && Matches(s.users, u, b.claims)
    ensures var read := Read(u, s.users[u], 0);
      Run(s, (Lookups(0, a) + Decisions(0)) + (Lookups(1, b) + Decisions(1)))
        == Some(At(At(s, 0, Linking(a, read, {Phone, Email})), 1, Linking(b, read, {Phone, Email})))
  {
    Prepares(s, 0, a, u);
    Prepares(At(s, 0, Linking(a, Read(u, s.users[u], 0), {Phone, Email})), 1, b, u);
    RunConcat(s, Lookups(0, a) + Decisions(0), Lookups(1, b) + Decisions(1));
  }

  /** A login that claims a phone number and an address, and one with the same uid that claims only the
      address, overlap: the later write lowers the level and clears the time that the first one set. */
  lemma OverlapTakesAway(s: State, a: Attempt, b: Attempt, u: Id)
    requires Initial(s) && s.users.Keys == {u} && WellFormed(a.claims) && WellFormed(b.claims)
    requires MayLink(s.users[u], a.claims) && MayLink(s.users[u], b.claims) && a.claims.uid == b.claims.uid
    requires s.users[u].level == 0 && s.users[u].phoneVerifiedAt.None? && s.users[u].email.Some?
    requires a.claims.email == s.users[u].email == b.claims.email && a.claims.phone.Some? && b.claims.phone.None?
    ensures var r := Run(s, Overlap(a, b));
      && r.Some? && |r.value.log| == 2 && u in r.value.users && !Keeps(r.value.log[0].row, r.value.users[u])
      && r.value.log[0].row.level == 2 && r.value.users[u].level == 1
      && r.value.log[0].row.phoneVerifiedAt == Some(a.now) && r.value.users[u].phoneVerifiedAt == None
  {
    assert KeyOf(s.users[u], Email) == ClaimOf(a.claims, Email) == ClaimOf(b.claims, Email);
    OverlapWrites(s, a, b, u);
  }
}
