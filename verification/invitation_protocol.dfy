/** Inviting, split at its database calls: the duplicate check and the new row are two calls, so requests
    interleave between them. */
module InvitationProtocol {
  import opened InvitationSafety
  import opened InvitationStore
  import opened Roles
  import opened Wrappers

  /** A request that has passed the duplicate check. `at` is the number of rows created before its check. */
  datatype Thread = Checked(email: Option<string>, phone: Option<string>, role: Role, org: Option<Id>, at: nat)

  /** `log` are the invitations created, oldest first. */
  datatype State = State(db: Db, clock: Instant, threads: map<Id, Thread>, log: seq<Id>)

  datatype ProtocolStep =
    | Tick(to: Instant)
    | Check(t: Id, actor: Id, email: Option<string>, phone: Option<string>, role: Role, requested: Option<Id>)
    | Create(t: Id, id: Id)
    | Elsewhere(s: Step)
    | EditUsers(users: map<Id, User>)

  function RowOf(th: Thread, now: Instant): Invitation {
    Invitation(th.email, th.phone, th.role, th.org, Pending, Some(now + WEEK_MS), None)
  }

  /** The checks of inviteUser up to the duplicate check; a request stops at any later check by not going on. */
  predicate MayInvite(db: Db, actor: Id, email: Option<string>, phone: Option<string>, role: Role, requested: Option<Id>,
                      now: Instant)
  {
    && actor in db.users && Invitable(db.users[actor], role) && HasOrganization(db.users[actor])
    && (Given(email) || Given(phone))
    && !AnyDuplicate(db, email, phone, role, OrganizationOf(db.users[actor], requested), now)
  }

  /** One database call; None when it cannot happen. `Elsewhere` is any step of the other operations, at
      whatever times. */
  function Next(lower: string -> string, s: State, step: ProtocolStep): Option<State> {
    match step
    case Tick(to) => if s.clock <= to then Some(s.(clock := to)) else None
    case Check(t, actor, email, phone, role, requested) =>
      if t in s.threads || !MayInvite(s.db, actor, email, phone, role, requested, s.clock) then None
      else Some(s.(threads := s.threads[t :=
        Checked(email, phone, role, OrganizationOf(s.db.users[actor], requested), |s.log|)]))
    case Create(t, id) =>
      if t !in s.threads || id in s.db.invitations then None
      else Some(s.(db := s.db.(invitations := s.db.invitations[id := RowOf(s.threads[t], s.clock)]),
                   threads := s.threads - {t}, log := s.log + [id]))
    case Elsewhere(other) => if other.DoInvite? then None else Some(s.(db := Apply(lower, s.db, other)))
    case EditUsers(users) => Some(s.(db := s.db.(users := users)))
  }

  function Run(lower: string -> string, s: State, steps: seq<ProtocolStep>): Option<State>
    decreases |steps|
  {
    if steps == [] then Some(s)
    else
      var r := Run(lower, s, steps[..|steps| - 1]);
      if r.None? then None else Next(lower, r.value, steps[|steps| - 1])
  }

  ghost predicate Initial(s: State) {
    s.threads == map[] && s.log == [] && NoDuplicates(s.db, s.clock)
  }

  ghost predicate Reachable(lower: string -> string, s: State) {
    exists s0, steps :: Initial(s0) && Run(lower, s0, steps) == Some(s)
  }

  // ---------- what holds in every interleaving ----------

  /** An open invitation that a request's row would duplicate. */
  predicate Rival(s: State, th: Thread, j: Id) {
    j in s.db.invitations && SameTarget(s.db.invitations[j], RowOf(th, s.clock)) && Open(s.db.invitations[j], s.clock)
  }

  /** What a request would duplicate was created after its check. */
  ghost predicate ThreadOk(s: State, th: Thread) {
    th.at <= |s.log| && forall j :: Rival(s, th, j) ==> j in s.log[th.at..]
  }

  ghost predicate PendingRunOut(db: Db) {
    forall i :: i in db.invitations && db.invitations[i].status == Pending ==> db.invitations[i].expiresAt.Some?
  }

  ghost predicate Inv(s: State) {
    PendingRunOut(s.db) && forall t :: t in s.threads ==> ThreadOk(s, s.threads[t])
  }

  /** Nothing is opened: rows stay, or are no longer pending, and time passes. */
  ghost predicate OpensNone(s: State, next: State) {
    && s.clock <= next.clock && next.log == s.log && next.db.invitations.Keys == s.db.invitations.Keys
    && forall i :: i in next.db.invitations ==>
      next.db.invitations[i] == s.db.invitations[i] || next.db.invitations[i].status != Pending
  }

  lemma QuietStep(lower: string -> string, s: State, step: ProtocolStep)
    requires !step.Create? && Next(lower, s, step).Some?
    ensures OpensNone(s, Next(lower, s, step).value)
  {
    if step.Elsewhere? { StepOpensNone(lower, s.db, step.s); }
  }

  lemma QuietKeepsThread(s: State, next: State, th: Thread)
    requires OpensNone(s, next) && ThreadOk(s, th)
    ensures ThreadOk(next, th)
  {
    forall j | Rival(next, th, j) ensures Rival(s, th, j) {
    }
  }

  /** At the check there is no rival at all. */
  lemma CheckedIsOk(s: State, th: Thread)
    requires PendingRunOut(s.db) && !AnyDuplicate(s.db, th.email, th.phone, th.role, th.org, s.clock) && th.at == |s.log|
    ensures ThreadOk(s, th)
  {
    forall j | j in s.db.invitations ensures !Rival(s, th, j) {
      assert !Duplicate(s.db.invitations[j], th.email, th.phone, th.role, th.org, s.clock);
    }
  }

  lemma CreateKeepsThread(s: State, next: State, id: Id, row: Invitation, th: Thread)
    requires ThreadOk(s, th) && id !in s.db.invitations && next.clock == s.clock && next.log == s.log + [id]
    requires next.db.invitations == s.db.invitations[id := row]
    ensures ThreadOk(next, th)
  {
    assert next.log[th.at..] == s.log[th.at..] + [id];
    forall j | Rival(next, th, j) && j != id ensures j in s.log[th.at..] {
      assert Rival(s, th, j);
    }
  }

  lemma StepKeepsInv(lower: string -> string, s: State, step: ProtocolStep)
    requires Inv(s) && Next(lower, s, step).Some?
    ensures Inv(Next(lower, s, step).value)
  {
    var next := Next(lower, s, step).value;
    if step.Create? {
      var row := RowOf(s.threads[step.t], s.clock);
      forall t | t in next.threads ensures ThreadOk(next, next.threads[t]) {
        CreateKeepsThread(s, next, step.id, row, s.threads[t]);
      }
    } else {
      QuietStep(lower, s, step);
      forall t | t in next.threads ensures ThreadOk(next, next.threads[t]) {
        if step.Check? && t == step.t {
          CheckedIsOk(s, next.threads[t]);
          QuietKeepsThread(s, next, next.threads[t]);
        } else {
          QuietKeepsThread(s, next, s.threads[t]);
        }
      }
    }
  }

  lemma {:induction false} InvOverRun(lower: string -> string, s0: State, steps: seq<ProtocolStep>)
    requires Initial(s0) && Run(lower, s0, steps).Some?
    ensures Inv(Run(lower, s0, steps).value)
    decreases |steps|
  {
    if steps != [] {
      InvOverRun(lower, s0, steps[..|steps| - 1]);
      StepKeepsInv(lower, Run(lower, s0, steps[..|steps| - 1]).value, steps[|steps| - 1]);
    }
  }

  // ---------- duplicates ----------

  /** The request of the step would duplicate an open invitation created since its check. */
  ghost predicate Overtaken(s: State, step: ProtocolStep) {
    step.Create? && step.t in s.threads && s.threads[step.t].at <= |s.log|
    && exists j :: j in s.log[s.threads[step.t].at..] && Rival(s, s.threads[step.t], j)
  }

  lemma QuietKeepsDistinct(s: State, next: State)
    requires OpensNone(s, next) && NoDuplicates(s.db, s.clock)
    ensures NoDuplicates(next.db, next.clock)
  {
    var rows := next.db.invitations;
    forall i, j | i in rows && j in rows && i != j && SameTarget(rows[i], rows[j])
      ensures !(Open(rows[i], next.clock) && Open(rows[j], next.clock))
    {
      if Open(rows[i], next.clock) && Open(rows[j], next.clock) {
        assert Open(s.db.invitations[i], s.clock) && Open(s.db.invitations[j], s.clock);
      }
    }
  }

  lemma RivalMakesDuplicate(s: State, next: State, id: Id, th: Thread, j: Id)
    requires Rival(s, th, j) && id !in s.db.invitations && next.clock == s.clock
    requires next.db == s.db.(invitations := s.db.invitations[id := RowOf(th, s.clock)])
    ensures !NoDuplicates(next.db, next.clock)
  {
    assert Open(next.db.invitations[id], next.clock) && Open(next.db.invitations[j], next.clock);
    assert SameTarget(next.db.invitations[j], next.db.invitations[id]);
  }

  /** The exact condition over all interleavings: a database call leaves two open invitations of one
      organization and role with one address or number, where there were none, if and only if it creates the
      row of a request, and an open invitation of the same target was created since that request's check. */
  lemma DuplicatesExactly(lower: string -> string, s: State, step: ProtocolStep)
    requires Reachable(lower, s) && NoDuplicates(s.db, s.clock) && Next(lower, s, step).Some?
    ensures var next := Next(lower, s, step).value; !NoDuplicates(next.db, next.clock) <==> Overtaken(s, step)
  {
    var s0, steps :| Initial(s0) && Run(lower, s0, steps) == Some(s);
    InvOverRun(lower, s0, steps);
    var next := Next(lower, s, step).value;
    if step.Create? {
      var th := s.threads[step.t];
      assert ThreadOk(s, th);
      if j :| Rival(s, th, j) {
        assert j in s.log[th.at..];
        RivalMakesDuplicate(s, next, step.id, th, j);
      } else {
        forall i | i in s.db.invitations && SameTarget(s.db.invitations[i], RowOf(th, s.clock))
          ensures !Open(s.db.invitations[i], s.clock)
        {
          assert !Rival(s, th, i);
        }
        AddKeepsDistinct(s.db, step.id, RowOf(th, s.clock), s.clock, s.clock);
      }
    } else {
      QuietStep(lower, s, step);
      QuietKeepsDistinct(s, next);
    }
  }

  /** What a caller can ensure: no duplicate comes about when no invitation of the organization and role is
      created between a request's check and its row. */
  lemma UndisturbedInvitationIsDistinct(lower: string -> string, s: State, step: ProtocolStep)
    requires Reachable(lower, s) && NoDuplicates(s.db, s.clock) && step.Create? && Next(lower, s, step).Some?
    requires var th := s.threads[step.t];
      th.at <= |s.log| ==> forall j :: j in s.log[th.at..] && j in s.db.invitations ==>
        s.db.invitations[j].organizationId != th.org || s.db.invitations[j].role != th.role
    ensures var next := Next(lower, s, step).value; NoDuplicates(next.db, next.clock)
  {
    DuplicatesExactly(lower, s, step);
  }

  // ---------- the failing run ----------

  lemma OneMore(lower: string -> string, s: State, steps: seq<ProtocolStep>, step: ProtocolStep)
    requires Run(lower, s, steps).Some?
    ensures Run(lower, s, steps + [step]) == Next(lower, Run(lower, s, steps).value, step)
  {
    assert (steps + [step])[..|steps|] == steps;
  }

  /** Without invitations the duplicate check passes. */
  lemma Checks(lower: string -> string, s: State, t: Id, actor: Id, th: Thread)
    requires t !in s.threads && s.db.invitations == map[] && |s.log| == th.at
    requires actor in s.db.users && Invitable(s.db.users[actor], th.role) && HasOrganization(s.db.users[actor])
    requires Given(th.email) && th.org == OrganizationOf(s.db.users[actor], None)
    ensures Next(lower, s, Check(t, actor, th.email, th.phone, th.role, None)) == Some(s.(threads := s.threads[t := th]))
  {
    assert !AnyDuplicate(s.db, th.email, th.phone, th.role, th.org, s.clock);
  }

  lemma BothCheck(lower: string -> string, s: State, actor: Id, th: Thread) returns (steps: seq<ProtocolStep>)
    requires Initial(s) && s.db.invitations == map[] && th.at == 0
    requires actor in s.db.users && Invitable(s.db.users[actor], th.role) && HasOrganization(s.db.users[actor])
    requires Given(th.email) && th.org == OrganizationOf(s.db.users[actor], None)
    ensures Run(lower, s, steps) == Some(s.(threads := map[0 := th, 1 := th]))
  {
    var first, second := Check(0, actor, th.email, th.phone, th.role, None), Check(1, actor, th.email, th.phone, th.role, None);
    Checks(lower, s, 0, actor, th);
    OneMore(lower, s, [], first);
    var s1 := s.(threads := s.threads[0 := th]);
    Checks(lower, s1, 1, actor, th);
    OneMore(lower, s, [] + [first], second);
    assert s1.threads[1 := th] == map[0 := th, 1 := th];
    steps := [] + [first] + [second];
  }

  /** Both rows are created, and the second one is a duplicate. */
  lemma BothCreate(lower: string -> string, s: State, th: Thread) returns (steps: seq<ProtocolStep>)
    requires s.threads == map[0 := th, 1 := th] && s.db.invitations == map[] && Given(th.email)
    ensures var r := Run(lower, s, steps); r.Some? && r.value.clock == s.clock && !NoDuplicates(r.value.db, r.value.clock)
  {
    var row := RowOf(th, s.clock);
    var s1 := State(s.db.(invitations := map[0 := row]), s.clock, s.threads - {0}, s.log + [0]);
    OneMore(lower, s, [], Create(0, 0));
    assert Rival(s1, th, 0);
    var s2 := State(s.db.(invitations := map[0 := row][1 := row]), s.clock, s1.threads - {1}, s1.log + [1]);
    assert Next(lower, s1, Create(1, 1)) == Some(s2);
    OneMore(lower, s, [] + [Create(0, 0)], Create(1, 1));
    steps := [] + [Create(0, 0)] + [Create(1, 1)];
    RivalMakesDuplicate(s1, s2, 1, th, 0);
  }

  lemma {:induction false} RunConcat(lower: string -> string, s: State, a: seq<ProtocolStep>, b: seq<ProtocolStep>)
    requires Run(lower, s, a).Some?
    ensures Run(lower, s, a + b) == Run(lower, Run(lower, s, a).value, b)
    decreases |b|
  {
    if b == [] {
      assert a + b == a;
    } else {
      var ab := a + b;
      assert ab[..|ab| - 1] == a + b[..|b| - 1] && ab[|ab| - 1] == b[|b| - 1];
      RunConcat(lower, s, a, b[..|b| - 1]);
    }
  }

  /** Two requests of an organization's administrator for one address both pass the check, and both rows are
      created. */
  lemma OverlapDuplicates(lower: string -> string, s: State, actor: Id, email: string) returns (steps: seq<ProtocolStep>)
    requires Initial(s) && s.db.invitations == map[] && email != ""
    requires actor in s.db.users && s.db.users[actor].role == OrgAdmin && s.db.users[actor].organizationId.Some?
    ensures var r := Run(lower, s, steps); r.Some? && r.value.clock == s.clock && !NoDuplicates(r.value.db, r.value.clock)
  {
    var th := Checked(Some(email), None, Citizen, s.db.users[actor].organizationId, 0);
    var checks := BothCheck(lower, s, actor, th);
    var creates := BothCreate(lower, s.(threads := map[0 := th, 1 := th]), th);
    RunConcat(lower, s, checks, creates);
    steps := checks + creates;
  }
}
