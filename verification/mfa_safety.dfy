/** What every interleaving of authentication requests keeps. */
module MfaSafety {
  import opened MfaProtocol
  import opened MfaStore
  import opened Totp
  import opened Wrappers

  // ---------- what a trace says ----------

  /** A step accepted for an enrollment and the clock's step when the code was matched. */
  datatype Accepted = Accepted(step: nat, clockStep: nat)

  function NextSteps(before: seq<Accepted>, v: Event, e: Id): seq<Accepted> {
    match v
    case StepAccepted(f, n, c) => if f == e then before + [Accepted(n, c)] else before
    case EnrollmentConfirmed(f, _) => if f == e then [] else before
    case _ => before
  }

  /** The steps accepted for `e` since it was last confirmed, oldest first. */
  function StepsSinceConfirmation(trace: seq<Event>, e: Id): seq<Accepted> {
    if trace == [] then []
    else NextSteps(StepsSinceConfirmation(trace[..|trace| - 1], e), trace[|trace| - 1], e)
  }

  function NextCodes(before: seq<Id>, v: Event, u: Id): seq<Id> {
    match v
    case CodeAccepted(c, w) => if u == w then before + [c] else before
    case EnrollmentConfirmed(_, w) => if u == w then [] else before
    case _ => before
  }

  /** The backup codes user `u` has spent since a confirmation last replaced them. */
  function CodesSinceConfirmation(trace: seq<Event>, u: Id): seq<Id> {
    if trace == [] then []
    else NextCodes(CodesSinceConfirmation(trace[..|trace| - 1], u), trace[|trace| - 1], u)
  }

  /** How often backup code `c` was accepted. */
  function Uses(trace: seq<Event>, c: Id): nat {
    if trace == [] then 0
    else
      var v := trace[|trace| - 1];
      Uses(trace[..|trace| - 1], c) + if v.CodeAccepted? && v.codeId == c then 1 else 0
  }

  /** How many failed attempts session `x` has recorded. */
  function Failures(trace: seq<Event>, x: Digest): nat {
    if trace == [] then 0
    else
      var v := trace[|trace| - 1];
      Failures(trace[..|trace| - 1], x) + if v.FailureRecorded? && v.session == x then 1 else 0
  }

  lemma TraceAppend(trace: seq<Event>, v: Event)
    ensures forall e :: StepsSinceConfirmation(trace + [v], e) == NextSteps(StepsSinceConfirmation(trace, e), v, e)
    ensures forall u :: CodesSinceConfirmation(trace + [v], u) == NextCodes(CodesSinceConfirmation(trace, u), v, u)
    ensures forall c :: Uses(trace + [v], c) == Uses(trace, c) + if v.CodeAccepted? && v.codeId == c then 1 else 0
    ensures forall x :: Failures(trace + [v], x) == Failures(trace, x) + if v.FailureRecorded? && v.session == x then 1 else 0
  {
    assert (trace + [v])[..|trace|] == trace;
  }

  // ---------- what a step can do to the rows ----------

  /** Sessions keep their failure counters and locks; new ones start at zero. */
  ghost predicate SameCounters(s: State, s': State) {
    && (forall x :: x in s.db.sessions ==>
         x in s'.db.sessions
         && s'.db.sessions[x].failedAttempts == s.db.sessions[x].failedAttempts
         && s'.db.sessions[x].lockedAt == s.db.sessions[x].lockedAt)
    && (forall x :: x in s'.db.sessions && x !in s.db.sessions ==>
         s'.db.sessions[x].failedAttempts == 0 && s'.db.sessions[x].lockedAt == None)
  }

  /** Enrollment rows other than `except` keep their last verified step. */
  ghost predicate SameSteps(s: State, s': State, except: set<Id>) {
    forall e :: e in s.db.enrollments && e !in except ==>
      e in s'.db.enrollments
      && s'.db.enrollments[e].lastVerifiedStep == s.db.enrollments[e].lastVerifiedStep
  }

  ghost predicate SameCodes(s: State, s': State) {
    s'.db.codes == s.db.codes && s'.db.nextCodeId == s.db.nextCodeId
  }

  ghost predicate Quiet(s: State, s': State) {
    s'.trace == s.trace && SameCounters(s, s') && SameSteps(s, s', {}) && SameCodes(s, s')
  }

  ghost predicate AcceptsStep(s: State, s': State, e: Id, n: nat, c: nat) {
    && s'.trace == s.trace + [StepAccepted(e, n, c)]
    && SameCounters(s, s') && SameSteps(s, s', {e}) && SameCodes(s, s')
    && e in s.db.enrollments && e in s'.db.enrollments
    && (s.db.enrollments[e].lastVerifiedStep.Some? ==> s.db.enrollments[e].lastVerifiedStep.value < n)
    && s'.db.enrollments[e].lastVerifiedStep == Some(n)
    && (exists t :: t in s.threads && IsAcceptingStep(s.threads[t], n, c))
  }

  ghost predicate IsAcceptingStep(th: Thread, n: nat, c: nat) {
    th.AcceptingStep? && th.step == n && th.clockStep == c
  }

  ghost predicate AcceptsCode(s: State, s': State, digest: Digest, u: Id) {
    && digest in s.db.codes && var row := s.db.codes[digest];
    && row.userId == u && row.usedAt == None
    && s'.trace == s.trace + [CodeAccepted(row.id, u)]
    && s'.db.codes == s.db.codes[digest := row.(usedAt := Some(s.clock))] && s'.db.nextCodeId == s.db.nextCodeId
    && SameCounters(s, s') && SameSteps(s, s', {})
  }

  ghost predicate Confirms(s: State, s': State, e: Id, u: Id, digests: seq<Digest>) {
    && s'.trace == s.trace + [EnrollmentConfirmed(e, u)]
    && SameCounters(s, s') && SameSteps(s, s', {e})
    && |digests| == BACKUP_CODE_COUNT
    && s'.db.nextCodeId == s.db.nextCodeId + |digests|
    && var old_ := CodesOfOthers(s.db.codes, u);
    && s'.db.codes == old_ + NewCodes(digests, e, u, s.db.nextCodeId)
    && (forall d :: d in digests ==> d !in old_)
  }

  ghost predicate Fails(s: State, s': State, x: Digest, seen: nat) {
    && s'.trace == s.trace + [FailureRecorded(x)]
    && s'.db == RecordFailedAttempt(s.db, x, seen, s.clock)
    && (exists t :: t in s.threads && IsFailing(s.threads[t], x, seen))
  }

  ghost predicate IsFailing(th: Thread, x: Digest, seen: nat) {
    th.Failing? && th.pre.session == x && th.pre.failedAttempts == seen
  }

  ghost predicate Effect(s: State, s': State) {
    || Quiet(s, s')
    || (exists e, n, c :: AcceptsStep(s, s', e, n, c))
    || (exists d, u :: AcceptsCode(s, s', d, u))
    || (exists e, u, ds :: Confirms(s, s', e, u, ds))
    || (exists x, seen :: Fails(s, s', x, seen))
  }

  lemma ConfirmationEffect(hmac: Hmac, s: State, step: Step)
    requires step.WriteConfirmation? && Apply(hmac, s, step).Some?
    ensures Effect(s, Apply(hmac, s, step).value)
  {
    var s', th := Apply(hmac, s, step).value, s.threads[step.t];
    if s' != s.(threads := Without(s.threads, step.t)) {
      assert Confirms(s, s', th.e, th.pre.userId, step.digests);
    }
  }

  lemma AcceptanceEffect(hmac: Hmac, s: State, step: Step)
    requires step.WriteAcceptance? && Apply(hmac, s, step).Some?
    ensures Effect(s, Apply(hmac, s, step).value)
  {
    var s', th := Apply(hmac, s, step).value, s.threads[step.t];
    if s'.db == s.db && s'.trace == s.trace {
      assert Quiet(s, s');
    } else if th.AcceptingStep? {
      assert IsAcceptingStep(th, th.step, th.clockStep);
      assert AcceptsStep(s, s', th.e, th.step, th.clockStep);
    } else {
      assert AcceptsCode(s, s', th.digest, th.pre.userId);
    }
  }

  lemma FailureEffect(hmac: Hmac, s: State, step: Step)
    requires step.WriteFailure? && Apply(hmac, s, step).Some?
    ensures Effect(s, Apply(hmac, s, step).value)
  {
    var s', th := Apply(hmac, s, step).value, s.threads[step.t];
    assert IsFailing(th, th.pre.session, th.pre.failedAttempts);
    assert Fails(s, s', th.pre.session, th.pre.failedAttempts);
  }

  lemma EveryStepHasEffect(hmac: Hmac, s: State, step: Step)
    requires Apply(hmac, s, step).Some?
    ensures Effect(s, Apply(hmac, s, step).value)
  {
    if step.WriteConfirmation? {
      ConfirmationEffect(hmac, s, step);
    } else if step.WriteAcceptance? {
      AcceptanceEffect(hmac, s, step);
    } else if step.WriteFailure? {
      FailureEffect(hmac, s, step);
    } else {
      assert Quiet(s, Apply(hmac, s, step).value);
    }
  }

  // ---------- accepted TOTP steps ----------

  ghost predicate Increasing(rs: seq<Accepted>) {
    forall i, j :: 0 <= i < j < |rs| ==> rs[i].step < rs[j].step
  }

  ghost predicate InWindows(rs: seq<Accepted>) {
    forall i :: 0 <= i < |rs| ==> InWindow(rs[i].clockStep, rs[i].step)
  }

  ghost predicate StepsOf(s: State, e: Id) {
    var rs := StepsSinceConfirmation(s.trace, e);
    && Increasing(rs) && InWindows(rs)
    && (rs != [] ==> e in s.db.enrollments && s.db.enrollments[e].lastVerifiedStep == Some(rs[|rs| - 1].step))
  }

  /** A thread about to accept a step matched it within the window of the clock it read. */
  ghost predicate ThreadsInWindow(s: State) {
    forall t, n, c :: t in s.threads && IsAcceptingStep(s.threads[t], n, c) ==> InWindow(c, n)
  }

  ghost predicate StepInv(s: State) {
    (forall e :: StepsOf(s, e)) && ThreadsInWindow(s)
  }

  lemma ThreadsStayInWindow(hmac: Hmac, s: State, step: Step)
    requires ThreadsInWindow(s) && Apply(hmac, s, step).Some?
    ensures ThreadsInWindow(Apply(hmac, s, step).value)
  {
  }

  lemma IncreasingAppend(rs: seq<Accepted>, r: Accepted)
    requires Increasing(rs) && InWindows(rs) && InWindow(r.clockStep, r.step)
    requires rs != [] ==> rs[|rs| - 1].step < r.step
    ensures Increasing(rs + [r]) && InWindows(rs + [r])
  {
  }

  lemma StepsOfAfterAcceptance(s: State, s': State, e: Id, f: Id, n: nat, c: nat)
    requires StepInv(s) && AcceptsStep(s, s', f, n, c)
    ensures StepsOf(s', e)
  {
    assert StepsOf(s, e);
    TraceAppend(s.trace, StepAccepted(f, n, c));
    assert InWindow(c, n);
    if e == f {
      IncreasingAppend(StepsSinceConfirmation(s.trace, e), Accepted(n, c));
    }
  }

  lemma StepsOfAfterOther(s: State, s': State, e: Id, v: Event)
    requires StepsOf(s, e) && s'.trace == s.trace + [v] && !v.StepAccepted?
    requires SameSteps(s, s', if v.EnrollmentConfirmed? then {v.e} else {})
    ensures StepsOf(s', e)
  {
    TraceAppend(s.trace, v);
  }

  lemma StepsOfHolds(s: State, s': State, e: Id)
    requires StepInv(s) && Effect(s, s')
    ensures StepsOf(s', e)
  {
    assert StepsOf(s, e);
    if f, n, c :| AcceptsStep(s, s', f, n, c) {
      StepsOfAfterAcceptance(s, s', e, f, n, c);
    } else if d, u :| AcceptsCode(s, s', d, u) {
      StepsOfAfterOther(s, s', e, CodeAccepted(s.db.codes[d].id, u));
    } else if f, u, ds :| Confirms(s, s', f, u, ds) {
      StepsOfAfterOther(s, s', e, EnrollmentConfirmed(f, u));
    } else if x, seen :| Fails(s, s', x, seen) {
      StepsOfAfterOther(s, s', e, FailureRecorded(x));
    } else {
      assert Quiet(s, s');
    }
  }

  lemma StepInvHolds(hmac: Hmac, s: State, step: Step)
    requires StepInv(s) && Apply(hmac, s, step).Some?
    ensures StepInv(Apply(hmac, s, step).value)
  {
    var s' := Apply(hmac, s, step).value;
    EveryStepHasEffect(hmac, s, step);
    forall e ensures StepsOf(s', e) {
      StepsOfHolds(s, s', e);
    }
    ThreadsStayInWindow(hmac, s, step);
  }

  // ---------- runs ----------

  lemma {:induction false} StepInvOverRun(hmac: Hmac, s0: State, steps: seq<Step>)
    requires Initial(s0) && Run(hmac, s0, steps).Some?
    ensures StepInv(Run(hmac, s0, steps).value)
    decreases |steps|
  {
    if steps != [] {
      var front := steps[..|steps| - 1];
      StepInvOverRun(hmac, s0, front);
      StepInvHolds(hmac, Run(hmac, s0, front).value, steps[|steps| - 1]);
    }
  }

  /** How many of the accepted steps were matched while the clock's step was in [lo, hi]. */
  function CountMatchedIn(rs: seq<Accepted>, lo: int, hi: int): nat {
    if rs == [] then 0
    else
      CountMatchedIn(rs[..|rs| - 1], lo, hi) + if lo <= rs[|rs| - 1].clockStep <= hi then 1 else 0
  }

  function Max(a: int, b: int): int { if a < b then b else a }
  function Min(a: int, b: int): int { if a < b then a else b }

  lemma {:induction false} CountBound(rs: seq<Accepted>, lo: int, hi: int)
    requires Increasing(rs) && InWindows(rs) && lo <= hi
    ensures CountMatchedIn(rs, lo, hi) <= if rs == [] then 0 else Max(0, Min(rs[|rs| - 1].step, hi + 1) - lo + 2)
  {
    if rs != [] {
      var front := rs[..|rs| - 1];
      CountBound(front, lo, hi);
      assert front != [] ==> front[|front| - 1].step < rs[|rs| - 1].step;
      assert InWindow(rs[|rs| - 1].clockStep, rs[|rs| - 1].step);
    }
  }

  /** In every interleaving the steps accepted for an enrollment since its confirmation strictly
      increase, and at most hi - lo + 3 of them are matched while the clock is in steps lo to hi. */
  lemma AcceptedStepsIncrease(hmac: Hmac, s: State, e: Id, lo: int, hi: int)
    requires Reachable(hmac, s) && lo <= hi
    ensures Increasing(StepsSinceConfirmation(s.trace, e))
    ensures CountMatchedIn(StepsSinceConfirmation(s.trace, e), lo, hi) <= hi - lo + 3
  {
    var s0, steps :| Initial(s0) && Run(hmac, s0, steps) == Some(s);
    StepInvOverRun(hmac, s0, steps);
    assert StepsOf(s, e);
    CountBound(StepsSinceConfirmation(s.trace, e), lo, hi);
  }
}
