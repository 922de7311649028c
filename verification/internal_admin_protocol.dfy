/** The operations of internal administration that change users, split at their database calls: any
    number of requests, each a thread that keeps what it has read, interleave between them. */
module InternalAdminProtocol {
  import opened InternalAdminSafety
  import opened InternalAdminStore
  import opened Roles
  import opened Wrappers

  /** What a request remembers. `counted` are the other active super administrators that the final-super
      check of a suspension saw, and `at` is the number of user writes before that check. */
  datatype Thread =
    | Suspending(target: Id)
    | Counted(target: Id, counted: set<Id>, at: nat)
    | Accepting(actor: Id, invitation: Id, row: Invitation)
    | Reactivating(target: Id)

  /** A user write: afterwards `u` is an active super administrator, or is none. */
  datatype Commit = Commit(u: Id, active: bool)

  datatype State = State(db: Db, threads: map<Id, Thread>, log: seq<Commit>)

  datatype ProtocolStep =
    | CheckSuspend(t: Id, actor: Id, target: Id, now: Instant)
    | CountSupers(t: Id)
    | WriteSuspend(t: Id)
    | CheckAccept(t: Id, actor: Id, invitation: Id, now: Instant)
    | WriteAccept(t: Id, id: Id, now: Instant)
    | CheckReactivate(t: Id, actor: Id, target: Id, now: Instant)
    | WriteReactivate(t: Id)
    | Elsewhere(invitations: map<Id, Invitation>, assignments: map<Id, Assignment>, approvals: map<Id, Approval>)

  function ActiveSupers(db: Db): set<Id> {
    set u | u in db.users && IsActiveSuper(db.users[u])
  }

  function WriteUser(s: State, t: Id, u: Id, row: User): State {
    State(s.db.(users := s.db.users[u := row]), s.threads - {t}, s.log + [Commit(u, IsActiveSuper(row))])
  }

  /** One database call; None when it cannot happen. `Elsewhere` stands for any step of an operation that
      writes no user, under the only condition that it makes no pending high-risk invitation. */
  ghost function Next(c: Config, lower: string -> string, s: State, step: ProtocolStep): Option<State> {
    match step
    case CheckSuspend(t, actor, target, now) =>
      if t in s.threads || actor == target || !MayDo(c, s.db, actor, AdminSuspend, now) then None
      else Some(s.(threads := s.threads[t := Suspending(target)]))
    case CountSupers(t) =>
      if t !in s.threads || !s.threads[t].Suspending? then None
      else
        var target := s.threads[t].target;
        if AnotherSuper(s.db, target)
        then Some(s.(threads := s.threads[t := Counted(target, ActiveSupers(s.db) - {target}, |s.log|)]))
        else Some(s.(threads := s.threads - {t}))
    case WriteSuspend(t) =>
      if t !in s.threads || !s.threads[t].Counted? || s.threads[t].target !in s.db.users then None
      else
        var u := s.threads[t].target;
        Some(WriteUser(s, t, u, s.db.users[u].(status := Suspended)))
    case CheckAccept(t, actor, i, now) =>
      if t in s.threads || !MayAccept(c, lower, s.db, actor, i, now) then None
      else Some(s.(threads := s.threads[t := Accepting(actor, i, s.db.invitations[i])]))
    case WriteAccept(t, id, now) =>
      if t !in s.threads || !s.threads[t].Accepting? || s.threads[t].actor !in s.db.users
         || s.threads[t].invitation !in s.db.invitations || EnabledRole(c, s.threads[t].row.role).None? then None
      else
        var th := s.threads[t];
        var next := WriteUser(s, t, th.actor, Joined(s.db.users[th.actor], th.row));
        var a := Assignment(th.actor, th.row.role, true, EnabledRole(c, th.row.role).value.permissions, th.row.invitedBy,
                            th.row.organizationId, now, Some(th.row.expiresAt));
        Some(next.(db := next.db.(
          assignments := s.db.assignments[id := a],
          invitations := s.db.invitations[th.invitation := s.db.invitations[th.invitation].(status := Accepted)])))
    case CheckReactivate(t, actor, target, now) =>
      if t in s.threads || !MayDo(c, s.db, actor, AdminSuspend, now) then None
      else Some(s.(threads := s.threads[t := Reactivating(target)]))
    case WriteReactivate(t) =>
      if t !in s.threads || !s.threads[t].Reactivating? || s.threads[t].target !in s.db.users then None
      else
        var u := s.threads[t].target;
        Some(WriteUser(s, t, u, s.db.users[u].(status := Active)))
    case Elsewhere(invitations, assignments, approvals) =>
      var db := s.db.(invitations := invitations, assignments := assignments, approvals := approvals);
      if NoPendingHighRisk(db) then Some(s.(db := db)) else None
  }

  ghost function Run(c: Config, lower: string -> string, s: State, steps: seq<ProtocolStep>): Option<State>
    decreases |steps|
  {
    if steps == [] then Some(s)
    else
      var r := Run(c, lower, s, steps[..|steps| - 1]);
      if r.None? then None else Next(c, lower, r.value, steps[|steps| - 1])
  }

  /** No request is under way and no high-risk invitation is pending. */
  ghost predicate Initial(s: State) {
    NoPendingHighRisk(s.db) && s.threads == map[] && s.log == []
  }

  ghost predicate Reachable(c: Config, lower: string -> string, s: State) {
    exists s0, steps :: Initial(s0) && Run(c, lower, s0, steps) == Some(s)
  }

  // ---------- the users as the writes made them ----------

  /** The active super administrators after some writes. */
  function Replay(supers: set<Id>, log: seq<Commit>): set<Id>
    decreases |log|
  {
    if log == [] then supers
    else
      var before, w := Replay(supers, log[..|log| - 1]), log[|log| - 1];
      if w.active then before + {w.u} else before - {w.u}
  }

  /** What the last of some writes to a user left. */
  function LastWrite(log: seq<Commit>, u: Id): Option<bool>
    decreases |log|
  {
    if log == [] then None
    else if log[|log| - 1].u == u then Some(log[|log| - 1].active)
    else LastWrite(log[..|log| - 1], u)
  }

  lemma {:induction false} ReplayIsLastWrites(supers: set<Id>, log: seq<Commit>, u: Id)
    ensures u in Replay(supers, log) <==> LastWrite(log, u).GetOr(u in supers)
    decreases |log|
  {
    if log != [] { ReplayIsLastWrites(supers, log[..|log| - 1], u); }
  }

  lemma ReplayAppend(supers: set<Id>, log: seq<Commit>, w: Commit)
    ensures Replay(supers, log + [w]) == if w.active then Replay(supers, log) + {w.u} else Replay(supers, log) - {w.u}
  {
    assert (log + [w])[..|log|] == log;
  }

  /** A count that was taken is the present without the target, but for the writes since. */
  ghost predicate CountOk(s: State, th: Thread) {
    th.Counted? ==> th.at <= |s.log| && th.target !in th.counted && th.counted != {}
                    && ActiveSupers(s.db) - {th.target} == Replay(th.counted, s.log[th.at..]) - {th.target}
  }

  ghost predicate Inv(s: State) {
    && NoPendingHighRisk(s.db)
    && (forall t :: t in s.threads ==> CountOk(s, s.threads[t]))
    && (forall t :: t in s.threads && s.threads[t].Accepting? ==> !IsSuper(s.threads[t].row.role))
  }

  lemma SupersAfterWrite(s: State, t: Id, u: Id, row: User)
    ensures var next := WriteUser(s, t, u, row);
      ActiveSupers(next.db) == if IsActiveSuper(row) then ActiveSupers(s.db) + {u} else ActiveSupers(s.db) - {u}
  {
  }

  lemma SameBut(a: set<Id>, b: set<Id>, target: Id, u: Id)
    requires a - {target} == b - {target}
    ensures (a + {u}) - {target} == (b + {u}) - {target} && (a - {u}) - {target} == (b - {u}) - {target}
  {
    forall x | x != target ensures x in a <==> x in b {
      assert x in a - {target} <==> x in b - {target};
    }
  }

  lemma WriteKeepsCount(s: State, t: Id, u: Id, row: User, th: Thread)
    requires CountOk(s, th)
    ensures CountOk(WriteUser(s, t, u, row), th)
  {
    if th.Counted? {
      var w := Commit(u, IsActiveSuper(row));
      assert (s.log + [w])[th.at..] == s.log[th.at..] + [w];
      ReplayAppend(th.counted, s.log[th.at..], w);
      SupersAfterWrite(s, t, u, row);
      SameBut(ActiveSupers(s.db), Replay(th.counted, s.log[th.at..]), th.target, u);
    }
  }

  lemma WriteKeepsInv(s: State, t: Id, u: Id, row: User)
    requires Inv(s)
    ensures Inv(WriteUser(s, t, u, row))
  {
    var next := WriteUser(s, t, u, row);
    forall x | x in next.threads ensures CountOk(next, next.threads[x]) {
      WriteKeepsCount(s, t, u, row, s.threads[x]);
    }
  }

  lemma CountIsOk(s: State, target: Id)
    requires AnotherSuper(s.db, target)
    ensures CountOk(s, Counted(target, ActiveSupers(s.db) - {target}, |s.log|))
  {
    var u :| u in s.db.users && u != target && IsActiveSuper(s.db.users[u]);
    assert u in ActiveSupers(s.db) - {target};
    assert s.log[|s.log|..] == [];
  }

  lemma StepKeepsInv(c: Config, lower: string -> string, s: State, step: ProtocolStep)
    requires Inv(s) && Next(c, lower, s, step).Some?
    ensures Inv(Next(c, lower, s, step).value)
  {
    match step
    case CountSupers(t) =>
      if AnotherSuper(s.db, s.threads[t].target) { CountIsOk(s, s.threads[t].target); }
    case WriteSuspend(t) =>
      var u := s.threads[t].target;
      WriteKeepsInv(s, t, u, s.db.users[u].(status := Suspended));
    case WriteAccept(t, id, now) =>
      var th := s.threads[t];
      WriteKeepsInv(s, t, th.actor, Joined(s.db.users[th.actor], th.row));
    case WriteReactivate(t) =>
      var u := s.threads[t].target;
      WriteKeepsInv(s, t, u, s.db.users[u].(status := Active));
    case _ =>
  }

  lemma {:induction false} InvOverRun(c: Config, lower: string -> string, s: State, steps: seq<ProtocolStep>)
    requires Inv(s) && Run(c, lower, s, steps).Some?
    ensures Inv(Run(c, lower, s, steps).value)
    decreases |steps|
  {
    if steps != [] {
      InvOverRun(c, lower, s, steps[..|steps| - 1]);
      StepKeepsInv(c, lower, Run(c, lower, s, steps[..|steps| - 1]).value, steps[|steps| - 1]);
    }
  }

  lemma ReachableIsInv(c: Config, lower: string -> string, s: State)
    requires Reachable(c, lower, s)
    ensures Inv(s)
  {
    var s0, steps :| Initial(s0) && Run(c, lower, s0, steps) == Some(s);
    InvOverRun(c, lower, s0, steps);
  }

  // ---------- the last super administrator ----------

  /** Since the count, every counted administrator was written to be none, and nobody else but the target
      was made one. */
  ghost predicate CountUndone(s: State, th: Thread)
    requires th.Counted? && th.at <= |s.log|
  {
    var since := s.log[th.at..];
    && (forall u :: u in th.counted ==> LastWrite(since, u) == Some(false))
    && (forall u :: u != th.target && u !in th.counted ==> LastWrite(since, u) != Some(true))
  }

  /** The write of a request takes the last active super administrator away. */
  ghost predicate TakesLast(s: State, step: ProtocolStep) {
    (step.WriteSuspend? || step.WriteAccept?) && step.t in s.threads
    && var th := s.threads[step.t];
    || (step.WriteSuspend? && th.Counted? && th.at <= |s.log| && CountUndone(s, th))
    || (step.WriteAccept? && th.Accepting? && OnlyActiveSuper(s.db, th.actor))
  }

  lemma OthersAreReplayed(s: State, th: Thread)
    requires CountOk(s, th) && th.Counted?
    ensures ActiveSupers(s.db) - {th.target} == {} <==> CountUndone(s, th)
  {
    var since := s.log[th.at..];
    var others := ActiveSupers(s.db) - {th.target};
    forall u ensures u in others <==> u != th.target && LastWrite(since, u).GetOr(u in th.counted) {
      ReplayIsLastWrites(th.counted, since, u);
      assert u in others <==> u in Replay(th.counted, since) - {th.target};
    }
    if others == {} {
      forall u | u != th.target ensures !LastWrite(since, u).GetOr(u in th.counted) {
        assert u !in others;
      }
    } else {
      var u :| u in others;
      assert LastWrite(since, u) == Some(true) || (LastWrite(since, u) == None && u in th.counted);
    }
  }

  lemma NobodyLeft(db: Db)
    ensures HasActiveSuper(db) <==> ActiveSupers(db) != {}
  {
    if HasActiveSuper(db) {
      var u :| u in db.users && IsActiveSuper(db.users[u]);
      assert u in ActiveSupers(db);
    }
  }

  lemma SuspensionLeavesNone(s: State, step: ProtocolStep, next: State)
    requires Inv(s) && step.WriteSuspend? && step.t in s.threads && s.threads[step.t].Counted?
    requires var u := s.threads[step.t].target;
      u in s.db.users && next == WriteUser(s, step.t, u, s.db.users[u].(status := Suspended))
    ensures HasActiveSuper(next.db) <==> !CountUndone(s, s.threads[step.t])
  {
    var u := s.threads[step.t].target;
    SupersAfterWrite(s, step.t, u, s.db.users[u].(status := Suspended));
    OthersAreReplayed(s, s.threads[step.t]);
    NobodyLeft(next.db);
  }

  lemma AcceptanceLeavesNone(s: State, t: Id, u: Id, row: User, next: State)
    requires u in s.db.users && !IsActiveSuper(row) && next.db.users == s.db.users[u := row] && HasActiveSuper(s.db)
    ensures HasActiveSuper(next.db) <==> !OnlyActiveSuper(s.db, u)
  {
    if AnotherSuper(s.db, u) {
      var v :| v in s.db.users && v != u && IsActiveSuper(s.db.users[v]);
      assert IsActiveSuper(next.db.users[v]);
    }
    if HasActiveSuper(next.db) {
      var v :| v in next.db.users && IsActiveSuper(next.db.users[v]);
      assert v != u && IsActiveSuper(s.db.users[v]);
    }
    if HasActiveSuper(s.db) && !IsActiveSuper(s.db.users[u]) {
      var v :| v in s.db.users && IsActiveSuper(s.db.users[v]);
      assert v != u && AnotherSuper(s.db, u);
    }
  }

  /** The exact condition over all interleavings: a database call leaves no active super administrator if
      and only if it is the write of a suspension whose count has been undone since, or the write of an
      acceptance by the only active super administrator. */
  lemma LastSuperLeavesExactly(c: Config, lower: string -> string, s: State, step: ProtocolStep)
    requires Reachable(c, lower, s) && HasActiveSuper(s.db) && Next(c, lower, s, step).Some?
    ensures !HasActiveSuper(Next(c, lower, s, step).value.db) <==> TakesLast(s, step)
  {
    ReachableIsInv(c, lower, s);
    var next := Next(c, lower, s, step).value;
    match step
    case WriteSuspend(t) => SuspensionLeavesNone(s, step, next);
    case WriteAccept(t, id, now) =>
      var th := s.threads[t];
      AcceptanceLeavesNone(s, t, th.actor, Joined(s.db.users[th.actor], th.row), next);
    case WriteReactivate(t) =>
      var u :| u in s.db.users && IsActiveSuper(s.db.users[u]);
      assert IsActiveSuper(next.db.users[u]);
    case _ =>
      assert next.db.users == s.db.users;
      var u :| u in s.db.users && IsActiveSuper(s.db.users[u]);
      assert IsActiveSuper(next.db.users[u]);
  }

  lemma {:induction false} NoWriteNoUndoing(log: seq<Commit>, u: Id)
    requires forall w :: w in log ==> w.active
    ensures LastWrite(log, u) != Some(false)
    decreases |log|
  {
    if log != [] {
      assert log[|log| - 1] in log;
      assert forall w :: w in log[..|log| - 1] ==> w in log;
      NoWriteNoUndoing(log[..|log| - 1], u);
    }
  }

  /** What a caller can ensure: a suspension leaves an active super administrator when no other write has
      made anybody none since its count. */
  lemma UndisturbedSuspensionIsSafe(c: Config, lower: string -> string, s: State, step: ProtocolStep)
    requires Reachable(c, lower, s) && step.WriteSuspend? && Next(c, lower, s, step).Some? && HasActiveSuper(s.db)
    requires s.threads[step.t].at <= |s.log| ==> forall w :: w in s.log[s.threads[step.t].at..] ==> w.active
    ensures HasActiveSuper(Next(c, lower, s, step).value.db)
  {
    ReachableIsInv(c, lower, s);
    var th := s.threads[step.t];
    assert CountOk(s, th);
    var u :| u in th.counted;
    NoWriteNoUndoing(s.log[th.at..], u);
    LastSuperLeavesExactly(c, lower, s, step);
  }

  // ---------- the failing run ----------

  lemma OneMore(c: Config, lower: string -> string, s: State, steps: seq<ProtocolStep>, step: ProtocolStep)
    requires Run(c, lower, s, steps).Some?
    ensures Run(c, lower, s, steps + [step]) == Next(c, lower, Run(c, lower, s, steps).value, step)
  {
    assert (steps + [step])[..|steps|] == steps;
  }

  lemma SupersMaySuspend(c: Config, db: Db, u: Id, now: Instant)
    requires u in db.users && db.users[u].role == SuperAdmin && db.users[u].status == Active
    ensures MayDo(c, db, u, AdminSuspend, now)
  {
  }

  /** The two administrators check and count before either writes. */
  function MutualChecks(a: Id, b: Id, now: Instant): seq<ProtocolStep> {
    [] + [CheckSuspend(0, a, b, now)] + [CheckSuspend(1, b, a, now)] + [CountSupers(0)] + [CountSupers(1)]
  }

  lemma BothCount(c: Config, lower: string -> string, s: State, a: Id, b: Id, now: Instant)
    requires Initial(s) && a != b && a in s.db.users && b in s.db.users
    requires s.db.users[a].role == s.db.users[b].role == SuperAdmin
    requires s.db.users[a].status == s.db.users[b].status == Active
    ensures var r := Run(c, lower, s, MutualChecks(a, b, now));
      r.Some? && r.value.db == s.db && 0 in r.value.threads && 1 in r.value.threads
      && r.value.threads[0].Counted? && r.value.threads[0].target == b
      && r.value.threads[1].Counted? && r.value.threads[1].target == a
  {
    SupersMaySuspend(c, s.db, a, now);
    SupersMaySuspend(c, s.db, b, now);
    assert IsActiveSuper(s.db.users[a]) && IsActiveSuper(s.db.users[b]);
    assert AnotherSuper(s.db, a) && AnotherSuper(s.db, b);
    var s0, s1 := CheckSuspend(0, a, b, now), CheckSuspend(1, b, a, now);
    OneMore(c, lower, s, [], s0);
    OneMore(c, lower, s, [] + [s0], s1);
    OneMore(c, lower, s, [] + [s0] + [s1], CountSupers(0));
    OneMore(c, lower, s, [] + [s0] + [s1] + [CountSupers(0)], CountSupers(1));
  }

  /** Two super administrators who suspend each other at the same time both pass the check, and when there
      are no others none is left. */
  lemma MutualSuspensionLeavesNone(c: Config, lower: string -> string, s: State, a: Id, b: Id, now: Instant)
    requires Initial(s) && a != b && ActiveSupers(s.db) == {a, b}
    requires a in s.db.users && b in s.db.users && s.db.users[a].role == s.db.users[b].role == SuperAdmin
    ensures var steps := MutualChecks(a, b, now) + [WriteSuspend(0)] + [WriteSuspend(1)];
      var r := Run(c, lower, s, steps);
      r.Some? && HasActiveSuper(s.db) && !HasActiveSuper(r.value.db)
  {
    assert a in ActiveSupers(s.db) && b in ActiveSupers(s.db);
    BothCount(c, lower, s, a, b, now);
    var checks := MutualChecks(a, b, now);
    var s2 := Run(c, lower, s, checks).value;
    OneMore(c, lower, s, checks, WriteSuspend(0));
    var s3 := WriteUser(s2, 0, b, s2.db.users[b].(status := Suspended));
    SupersAfterWrite(s2, 0, b, s2.db.users[b].(status := Suspended));
    OneMore(c, lower, s, checks + [WriteSuspend(0)], WriteSuspend(1));
    SupersAfterWrite(s3, 1, a, s3.db.users[a].(status := Suspended));
    var s4 := WriteUser(s3, 1, a, s3.db.users[a].(status := Suspended));
    assert ActiveSupers(s4.db) == {};
    NobodyLeft(s4.db);
    NobodyLeft(s.db);
  }

  // ---------- nobody becomes a super administrator ----------

  /** In every interleaving the set of super administrators never grows. */
  lemma {:induction false} SupersNeverGrowInterleaved(c: Config, lower: string -> string, s: State, steps: seq<ProtocolStep>)
    requires Inv(s) && Run(c, lower, s, steps).Some?
    ensures Supers(Run(c, lower, s, steps).value.db) <= Supers(s.db)
    decreases |steps|
  {
    if steps != [] {
      var before := steps[..|steps| - 1];
      SupersNeverGrowInterleaved(c, lower, s, before);
      InvOverRun(c, lower, s, before);
      StepAddsNoSuper(c, lower, Run(c, lower, s, before).value, steps[|before|]);
    }
  }

  lemma StepAddsNoSuper(c: Config, lower: string -> string, s: State, step: ProtocolStep)
    requires Inv(s) && Next(c, lower, s, step).Some?
    ensures Supers(Next(c, lower, s, step).value.db) <= Supers(s.db)
  {
  }
}
