/** Which requests a pre-authentication session admits, told from the run that led there. */
module MfaAdmission {
  import opened Bytes
  import opened MfaAttempts
  import opened MfaProtocol
  import opened MfaSafety
  import opened MfaSessions
  import opened MfaStore
  import opened Totp
  import opened Wrappers

  /** Step `i` of the run logs in user `u` on session `x`. */
  predicate LogsIn(steps: seq<Step>, x: Digest, i: nat, u: Id, p: Purpose) {
    i < |steps| && steps[i] == Login(x, u, p)
  }

  lemma RunBefore(hmac: Hmac, s0: State, steps: seq<Step>)
    requires steps != [] && Run(hmac, s0, steps).Some?
    ensures var front := steps[..|steps| - 1];
      Run(hmac, s0, front).Some? && Apply(hmac, Run(hmac, s0, front).value, steps[|front|]) == Run(hmac, s0, steps)
  {
  }

  /** A session keeps user, purpose and expiry, and only a success on it consumes it. */
  lemma SessionStays(hmac: Hmac, s: State, step: Step, x: Digest)
    requires Apply(hmac, s, step).Some? && x in s.db.sessions
    ensures var next := Apply(hmac, s, step).value;
      && x in next.db.sessions
      && var a, b := s.db.sessions[x], next.db.sessions[x];
      && b.userId == a.userId && b.purpose == a.purpose && b.expiresAt == a.expiresAt
      && (b.consumedAt.Some? ==> a.consumedAt.Some? || Succeeds(hmac, s, step, x))
  {
  }

  lemma LoginOpens(hmac: Hmac, s: State, x: Digest, u: Id, p: Purpose)
    requires Apply(hmac, s, Login(x, u, p)).Some?
    ensures x !in s.db.sessions
    ensures var next := Apply(hmac, s, Login(x, u, p)).value;
      x in next.db.sessions && next.db.sessions[x] == Session(u, p, s.clock + 600_000, None, 0, None)
  {
  }

  lemma OnlyLoginOpens(hmac: Hmac, s: State, step: Step, x: Digest)
    requires Apply(hmac, s, step).Some? && x !in s.db.sessions && x in Apply(hmac, s, step).value.db.sessions
    ensures step.Login? && step.token == x
  {
  }

  lemma NoUseBeforeLogin(hmac: Hmac, s0: State, steps: seq<Step>, x: Digest)
    requires Initial(s0) && Run(hmac, s0, steps).Some? && x !in Run(hmac, s0, steps).value.db.sessions
    ensures UsesOf(hmac, s0, steps, x) == 0
  {
    if UsesOf(hmac, s0, steps, x) > 0 { UsedIsConsumed(hmac, s0, steps, x); }
  }

  /** The session of a login has its user and purpose and runs out ten minutes after it; it is consumed
      exactly when some request has used it. */
  lemma {:induction false} SessionOfLogin(hmac: Hmac, s0: State, steps: seq<Step>, x: Digest, i: nat, u: Id, p: Purpose)
    requires Initial(s0) && Run(hmac, s0, steps).Some? && LogsIn(steps, x, i, u, p)
    ensures Run(hmac, s0, steps[..i]).Some? && x in Run(hmac, s0, steps).value.db.sessions
    ensures var row := Run(hmac, s0, steps).value.db.sessions[x];
      && row.userId == u && row.purpose == p && row.expiresAt == Run(hmac, s0, steps[..i]).value.clock + 600_000
      && (row.consumedAt.Some? <==> UsesOf(hmac, s0, steps, x) > 0)
    decreases |steps|
  {
    var front := steps[..|steps| - 1];
    RunBefore(hmac, s0, steps);
    var s := Run(hmac, s0, front).value;
    if i == |front| {
      assert steps[..i] == front;
      LoginOpens(hmac, s, x, u, p);
      NoUseBeforeLogin(hmac, s0, front, x);
    } else {
      assert front[..i] == steps[..i];
      SessionOfLogin(hmac, s0, front, x, i, u, p);
      SessionStays(hmac, s, steps[|front|], x);
    }
    if UsesOf(hmac, s0, steps, x) > 0 { UsedIsConsumed(hmac, s0, steps, x); }
  }

  /** Every session was opened by a login. */
  lemma {:induction false} LoginOfSession(hmac: Hmac, s0: State, steps: seq<Step>, x: Digest) returns (i: nat, u: Id, p: Purpose)
    requires Initial(s0) && Run(hmac, s0, steps).Some? && x in Run(hmac, s0, steps).value.db.sessions
    ensures LogsIn(steps, x, i, u, p)
    decreases |steps|
  {
    var front := steps[..|steps| - 1];
    RunBefore(hmac, s0, steps);
    var s := Run(hmac, s0, front).value;
    if x in s.db.sessions {
      i, u, p := LoginOfSession(hmac, s0, front, x);
    } else {
      OnlyLoginOpens(hmac, s, steps[|front|], x);
      i, u, p := |front|, steps[|front|].userId, steps[|front|].purpose;
    }
  }

  function Needed(r: Request): Purpose {
    match r
    case Start(_) => EnrollmentPurpose
    case Confirm(_) => EnrollmentPurpose
    case TotpChallenge(_) => ChallengePurpose
    case RecoveryChallenge(_) => ChallengePurpose
  }

  /** Less than ten minutes ago, step `i` logged user `u` in on session `x` for the purpose of the request,
      and the account is active and privileged now. */
  ghost predicate FreshLogin(hmac: Hmac, s0: State, steps: seq<Step>, x: Digest, r: Request, i: nat, u: Id) {
    && LogsIn(steps, x, i, u, Needed(r)) && Run(hmac, s0, steps[..i]).Some? && Run(hmac, s0, steps).Some?
    && var s := Run(hmac, s0, steps).value;
    && s.clock < Run(hmac, s0, steps[..i]).value.clock + 600_000
    && u in s.db.accounts && s.db.accounts[u].active && s.db.accounts[u].privileged
  }

  /** A request on a session can begin if and only if a fresh login for its purpose opened the session, no
      request has used it, and fewer than five failures were recorded on it. */
  lemma BeginsExactly(hmac: Hmac, s0: State, steps: seq<Step>, t: Id, x: Digest, r: Request)
    requires Initial(s0) && Run(hmac, s0, steps).Some? && t !in Run(hmac, s0, steps).value.threads
    ensures var s := Run(hmac, s0, steps).value;
      Apply(hmac, s, Begin(t, x, r)).Some? <==>
        && (exists i: nat, u :: FreshLogin(hmac, s0, steps, x, r, i, u))
        && UsesOf(hmac, s0, steps, x) == 0 && Failures(s.trace, x) < 5
  {
    var s := Run(hmac, s0, steps).value;
    AttemptInvOverRun(hmac, s0, steps);
    assert SessionOk(s, x);
    if x in s.db.sessions {
      var i, u, p := LoginOfSession(hmac, s0, steps, x);
      SessionOfLogin(hmac, s0, steps, x, i, u, p);
      assert p == Needed(r) ==> LogsIn(steps, x, i, u, Needed(r));
      if Apply(hmac, s, Begin(t, x, r)).Some? {
        assert FreshLogin(hmac, s0, steps, x, r, i, u);
      }
    }
    if i: nat, u :| FreshLogin(hmac, s0, steps, x, r, i, u) {
      SessionOfLogin(hmac, s0, steps, x, i, u, Needed(r));
    }
  }

  // ---------- the lock ----------

  /** What holds of a session whose requests follow each other. */
  ghost predicate InStep(s: State, x: Digest) {
    x in s.db.sessions ==>
      var row := s.db.sessions[x];
      && (row.lockedAt.Some? <==> row.failedAttempts >= 5)
      && forall t :: t in InFlight(s, x) ==> s.threads[t].pre.failedAttempts == row.failedAttempts < 5
  }

  lemma OnlyOne(flight: set<Id>, t: Id)
    requires |flight| <= 1 && t in flight
    ensures flight == {t}
  {
    if u :| u in flight && u != t {
      SubsetSize({t, u}, flight);
    }
  }

  lemma FailureInStep(hmac: Hmac, s: State, step: Step, x: Digest)
    requires AttemptInv(s) && InStep(s, x) && |InFlight(s, x)| <= 1
    requires step.WriteFailure? && Apply(hmac, s, step).Some? && s.threads[step.t].pre.session == x
    ensures InStep(Apply(hmac, s, step).value, x)
  {
    assert ThreadOk(s, s.threads[step.t]);
    FailureLeavesFlight(hmac, s, step, x);
    OnlyOne(InFlight(s, x), step.t);
  }

  /** Any other step leaves counter and lock of the session as they are. */
  lemma OtherStep(hmac: Hmac, s: State, step: Step, x: Digest)
    requires Apply(hmac, s, step).Some? && x in s.db.sessions && !(step.WriteFailure? && s.threads[step.t].pre.session == x)
    ensures var next := Apply(hmac, s, step).value;
      && x in next.db.sessions && next.db.sessions[x].failedAttempts == s.db.sessions[x].failedAttempts
      && next.db.sessions[x].lockedAt == s.db.sessions[x].lockedAt
  {
  }

  lemma OtherInStep(hmac: Hmac, s: State, step: Step, x: Digest)
    requires AttemptInv(s) && InStep(s, x) && Apply(hmac, s, step).Some?
    requires !(step.WriteFailure? && s.threads[step.t].pre.session == x)
    ensures InStep(Apply(hmac, s, step).value, x)
  {
    var next := Apply(hmac, s, step).value;
    ThreadsKeepPreAuth(hmac, s, step);
    if x in s.db.sessions {
      OtherStep(hmac, s, step, x);
    } else if x in next.db.sessions {
      OnlyLoginOpens(hmac, s, step, x);
      LoginOpens(hmac, s, x, step.userId, step.purpose);
      forall t | t in s.threads ensures s.threads[t].pre.session != x { assert ThreadOk(s, s.threads[t]); }
    }
  }

  lemma {:induction false} InStepOverRun(hmac: Hmac, s0: State, steps: seq<Step>, x: Digest)
    requires Initial(s0) && Run(hmac, s0, steps).Some? && AtMost(hmac, s0, steps, x, 1)
    ensures InStep(Run(hmac, s0, steps).value, x)
    decreases |steps|
  {
    if steps != [] {
      var front := steps[..|steps| - 1];
      RunBefore(hmac, s0, steps);
      AtMostBefore(hmac, s0, steps, x, 1);
      InStepOverRun(hmac, s0, front, x);
      AttemptInvOverRun(hmac, s0, front);
      var s, step := Run(hmac, s0, front).value, steps[|front|];
      if step.WriteFailure? && s.threads[step.t].pre.session == x {
        FailureInStep(hmac, s, step, x);
      } else {
        OtherInStep(hmac, s, step, x);
      }
    }
  }

  /** When the requests on a session follow each other, it is locked exactly from its fifth failure on. */
  lemma LockedAtFive(hmac: Hmac, s0: State, steps: seq<Step>, x: Digest)
    requires Initial(s0) && Run(hmac, s0, steps).Some? && AtMost(hmac, s0, steps, x, 1)
    requires x in Run(hmac, s0, steps).value.db.sessions
    ensures var s := Run(hmac, s0, steps).value; s.db.sessions[x].lockedAt.Some? <==> Failures(s.trace, x) >= 5
  {
    InStepOverRun(hmac, s0, steps, x);
    AttemptInvOverRun(hmac, s0, steps);
    assert SessionOk(Run(hmac, s0, steps).value, x);
  }

  // ---------- enrollments ----------

  /** No user has two pending enrollments. */
  ghost predicate OnePending(db: Db) {
    forall e, f :: e in db.enrollments && f in db.enrollments && e != f
                   && db.enrollments[e].status == Pending && db.enrollments[f].status == Pending ==>
      db.enrollments[e].userId != db.enrollments[f].userId
  }

  lemma StartKeepsOnePending(db: Db, u: Id, e: Id, key: seq<byte>, now: Instant)
    requires OnePending(db) && e !in db.enrollments
    ensures OnePending(StartEnrollment(db, u, e, key, now))
  {
  }

  /** Only a start makes an enrollment pending. */
  lemma OnlyStartsPend(hmac: Hmac, s: State, step: Step)
    requires Apply(hmac, s, step).Some? && !step.WriteStart?
    ensures var next := Apply(hmac, s, step).value.db.enrollments;
      forall e :: e in next && next[e].status == Pending ==>
        e in s.db.enrollments && s.db.enrollments[e].status == Pending && s.db.enrollments[e].userId == next[e].userId
  {
  }

  lemma StepKeepsOnePending(hmac: Hmac, s: State, step: Step)
    requires OnePending(s.db) && Apply(hmac, s, step).Some?
    ensures OnePending(Apply(hmac, s, step).value.db)
  {
    if step.WriteStart? {
      var th := s.threads[step.t];
      StartKeepsOnePending(s.db, th.pre.userId, step.e, th.request.key, s.clock);
    } else {
      OnlyStartsPend(hmac, s, step);
    }
  }

  /** In every interleaving a user has at most one pending enrollment. */
  lemma {:induction false} AtMostOnePending(hmac: Hmac, s0: State, steps: seq<Step>)
    requires Initial(s0) && Run(hmac, s0, steps).Some?
    ensures OnePending(Run(hmac, s0, steps).value.db)
    decreases |steps|
  {
    if steps != [] {
      RunBefore(hmac, s0, steps);
      AtMostOnePending(hmac, s0, steps[..|steps| - 1]);
      StepKeepsOnePending(hmac, Run(hmac, s0, steps[..|steps| - 1]).value, steps[|steps| - 1]);
    }
  }

  /** The row that a request reads: no active enrollment of the user was enabled later, or no pending one
      created later; none is read only when there is none. */
  lemma LatestIsRead(hmac: Hmac, s: State, t: Id, found: Option<Id>, f: Id)
    requires Apply(hmac, s, ReadEnrollment(t, found)).Some?
    requires t in s.threads && s.threads[t].Validated? && f in s.db.enrollments
    requires var row := s.db.enrollments[f];
      && row.userId == s.threads[t].pre.userId && row.disabledAt.None?
      && row.status == if s.threads[t].request.Confirm? then Pending else Active
    ensures found.Some? && found.value in s.db.enrollments
    ensures var row, other := s.db.enrollments[found.value], s.db.enrollments[f];
      && row.userId == other.userId && row.status == other.status && row.disabledAt.None?
      && (row.status == Pending ==> other.createdAt <= row.createdAt)
      && (row.status == Active && row.enabledAt.Some? ==> other.enabledAt.Some? && other.enabledAt.value <= row.enabledAt.value)
  {
    var status := if s.threads[t].request.Confirm? then EnrollmentStatus.Pending else EnrollmentStatus.Active;
    assert Eligible(s.db, s.threads[t].pre.userId, status, f);
  }

  /** No digest is repeated, and none is another user's. */
  ghost predicate AreNew(db: Db, u: Id, digests: seq<Digest>) {
    && (forall i, j :: 0 <= i < j < |digests| ==> digests[i] != digests[j])
    && forall i :: 0 <= i < |digests| && digests[i] in db.codes ==> db.codes[digests[i]].userId == u
  }

  /** A confirmation activates its enrollment with no step accepted yet, makes the ten new codes the user's only
      ones, all unused, and consumes the session; it is rolled back exactly when a digest is not new. */
  lemma ConfirmationWrites(hmac: Hmac, s: State, t: Id, digests: seq<Digest>)
    requires t in s.threads && s.threads[t].Activating? && |digests| == 10
    requires s.threads[t].e in s.db.enrollments && s.threads[t].pre.session in s.db.sessions
    ensures var pre, e := s.threads[t].pre, s.threads[t].e;
      var r := Apply(hmac, s, WriteConfirmation(t, digests));
      && r.Some? && t !in r.value.threads
      && if AreNew(s.db, pre.userId, digests) then
           && var db := r.value.db;
           && db.accounts == s.db.accounts
           && db.enrollments == s.db.enrollments[e :=
                s.db.enrollments[e].(status := Active, enabledAt := Some(s.clock), lastVerifiedStep := None)]
           && db.sessions == s.db.sessions[pre.session := s.db.sessions[pre.session].(consumedAt := Some(s.clock))]
           && (forall d :: d in digests ==> d in db.codes && db.codes[d].userId == pre.userId
                                            && db.codes[d].enrollmentId == e && db.codes[d].usedAt.None?)
           && (forall d :: d in db.codes && d !in digests ==> d in s.db.codes && db.codes[d] == s.db.codes[d] && db.codes[d].userId != pre.userId)
           && (forall d :: d in s.db.codes && s.db.codes[d].userId != pre.userId ==> d in db.codes && db.codes[d] == s.db.codes[d])
         else r.value.db == s.db
  {
    var pre := s.threads[t].pre;
    var kept := CodesOfOthers(s.db.codes, pre.userId);
    ClashIs(s.db, pre.userId, digests);
    NewCodesAre(digests, s.threads[t].e, pre.userId, s.db.nextCodeId);
  }

  lemma ClashIs(db: Db, u: Id, digests: seq<Digest>)
    ensures Clash(CodesOfOthers(db.codes, u), digests) <==> !AreNew(db, u, digests)
  {
  }
}
