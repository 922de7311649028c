/** Failed attempts and locks of pre-authentication sessions, over every interleaving. */
module MfaAttempts {
  import opened MfaProtocol
  import opened MfaSafety
  import opened MfaStore
  import opened Totp
  import opened Wrappers

  ghost predicate SessionOk(s: State, x: Digest) {
    if x in s.db.sessions then
      var row := s.db.sessions[x];
      row.failedAttempts == Failures(s.trace, x) && (row.lockedAt.Some? ==> row.failedAttempts >= MAX_ATTEMPTS)
    else Failures(s.trace, x) == 0
  }

  /** A request validated its session below the limit and remembers a count that is not ahead. */
  ghost predicate ThreadOk(s: State, th: Thread) {
    && th.pre.session in s.db.sessions
    && th.pre.failedAttempts < MAX_ATTEMPTS
    && th.pre.failedAttempts <= s.db.sessions[th.pre.session].failedAttempts
  }

  ghost predicate AttemptInv(s: State) {
    && (forall x :: SessionOk(s, x))
    && (forall t :: t in s.threads ==> ThreadOk(s, s.threads[t]))
  }

  /** Sessions are never removed and their counters never fall. */
  ghost predicate CountersGrow(s: State, s': State) {
    forall x :: x in s.db.sessions ==>
      x in s'.db.sessions && s.db.sessions[x].failedAttempts <= s'.db.sessions[x].failedAttempts
  }

  lemma EffectGrows(s: State, s': State)
    requires Effect(s, s')
    ensures CountersGrow(s, s')
  {
  }

  lemma SessionOkHolds(s: State, s': State, x: Digest)
    requires AttemptInv(s) && Effect(s, s')
    ensures SessionOk(s', x)
  {
    assert SessionOk(s, x);
    if y, seen :| Fails(s, s', y, seen) {
      TraceAppend(s.trace, FailureRecorded(y));
      var t :| t in s.threads && IsFailing(s.threads[t], y, seen);
      assert ThreadOk(s, s.threads[t]);
    } else if s'.trace != s.trace {
      var v := s'.trace[|s'.trace| - 1];
      assert s'.trace == s.trace + [v] && !v.FailureRecorded?;
      TraceAppend(s.trace, v);
      assert SameCounters(s, s');
    } else {
      assert SameCounters(s, s');
    }
  }

  /** A step gives its own thread a new state with the same pre-authentication, starts one, or ends one. */
  lemma ThreadsKeepPreAuth(hmac: Hmac, s: State, step: Step)
    requires Apply(hmac, s, step).Some?
    ensures var s' := Apply(hmac, s, step).value;
      forall t :: t in s'.threads ==>
        if step.Begin? && t == step.t then
          t !in s.threads && ValidatePreAuth(s.db, step.token, PurposeOf(step.request), s.clock) == Some(s'.threads[t].pre)
          && s'.db == s.db
        else t in s.threads && s'.threads[t].pre == s.threads[t].pre
  {
  }

  lemma AttemptInvHolds(hmac: Hmac, s: State, step: Step)
    requires AttemptInv(s) && Apply(hmac, s, step).Some?
    ensures AttemptInv(Apply(hmac, s, step).value)
  {
    var s' := Apply(hmac, s, step).value;
    EveryStepHasEffect(hmac, s, step);
    EffectGrows(s, s');
    ThreadsKeepPreAuth(hmac, s, step);
    forall x ensures SessionOk(s', x) {
      SessionOkHolds(s, s', x);
    }
    forall t | t in s'.threads ensures ThreadOk(s', s'.threads[t]) {
      if t in s.threads { assert ThreadOk(s, s.threads[t]); }
    }
  }

  lemma {:induction false} AttemptInvOverRun(hmac: Hmac, s0: State, steps: seq<Step>)
    requires Initial(s0) && Run(hmac, s0, steps).Some?
    ensures AttemptInv(Run(hmac, s0, steps).value)
    decreases |steps|
  {
    if steps != [] {
      var front := steps[..|steps| - 1];
      AttemptInvOverRun(hmac, s0, front);
      AttemptInvHolds(hmac, Run(hmac, s0, front).value, steps[|steps| - 1]);
    }
  }

  /** In every interleaving the counter is the number of recorded failures, and a lock means five. */
  lemma CounterIsFailures(hmac: Hmac, s: State, x: Digest)
    requires Reachable(hmac, s) && x in s.db.sessions
    ensures s.db.sessions[x].failedAttempts == Failures(s.trace, x)
    ensures s.db.sessions[x].lockedAt.Some? ==> Failures(s.trace, x) >= 5
  {
    var s0, steps :| Initial(s0) && Run(hmac, s0, steps) == Some(s);
    AttemptInvOverRun(hmac, s0, steps);
    assert SessionOk(s, x);
  }

  lemma {:induction false} GrowthOverRun(hmac: Hmac, s: State, steps: seq<Step>)
    requires Run(hmac, s, steps).Some?
    ensures CountersGrow(s, Run(hmac, s, steps).value)
    decreases |steps|
  {
    if steps != [] {
      var front := steps[..|steps| - 1];
      GrowthOverRun(hmac, s, front);
      var m := Run(hmac, s, front).value;
      EveryStepHasEffect(hmac, m, steps[|steps| - 1]);
      EffectGrows(m, Run(hmac, s, steps).value);
    }
  }

  /** A session with five recorded failures never validates again, locked or not. */
  lemma FiveFailuresEndASession(hmac: Hmac, s: State, x: Digest, steps: seq<Step>, t: Id, r: Request)
    requires Reachable(hmac, s) && Failures(s.trace, x) >= 5
    requires Run(hmac, s, steps).Some?
    ensures Apply(hmac, Run(hmac, s, steps).value, Begin(t, x, r)).None?
  {
    var s0, pre :| Initial(s0) && Run(hmac, s0, pre) == Some(s);
    AttemptInvOverRun(hmac, s0, pre);
    assert SessionOk(s, x);
    GrowthOverRun(hmac, s, steps);
  }

  // ---------- how far concurrency stretches the limit ----------

  function InFlight(s: State, x: Digest): set<Id> {
    set t | t in s.threads && s.threads[t].pre.session == x
  }

  /** A run in which never more than `k` requests on session `x` are in flight. */
  ghost predicate AtMost(hmac: Hmac, s0: State, steps: seq<Step>, x: Digest, k: nat) {
    forall i :: 0 <= i <= |steps| && Run(hmac, s0, steps[..i]).Some? ==> |InFlight(Run(hmac, s0, steps[..i]).value, x)| <= k
  }

  lemma AtMostBefore(hmac: Hmac, s0: State, steps: seq<Step>, x: Digest, k: nat)
    requires steps != [] && Run(hmac, s0, steps).Some? && AtMost(hmac, s0, steps, x, k)
    ensures var front := steps[..|steps| - 1];
      AtMost(hmac, s0, front, x, k) && |InFlight(Run(hmac, s0, front).value, x)| <= k
  {
    var front := steps[..|steps| - 1];
    forall i | 0 <= i <= |front| && Run(hmac, s0, front[..i]).Some?
      ensures |InFlight(Run(hmac, s0, front[..i]).value, x)| <= k
    {
      assert front[..i] == steps[..i];
    }
  }

  ghost predicate Stretched(s: State, x: Digest, k: nat) {
    Failures(s.trace, x) <= 4 || Failures(s.trace, x) + |InFlight(s, x)| <= 4 + k
  }

  lemma {:induction false} SubsetSize<T>(a: set<T>, b: set<T>)
    requires a <= b
    ensures |a| <= |b|
  {
    if a != {} {
      var v :| v in a;
      SubsetSize(a - {v}, b - {v});
    }
  }

  /** A failure ends the request that records it. */
  lemma FailureLeavesFlight(hmac: Hmac, s: State, step: Step, x: Digest)
    requires step.WriteFailure? && Apply(hmac, s, step).Some? && s.threads[step.t].pre.session == x
    ensures InFlight(Apply(hmac, s, step).value, x) == InFlight(s, x) - {step.t} && step.t in InFlight(s, x)
    ensures Failures(Apply(hmac, s, step).value.trace, x) == Failures(s.trace, x) + 1
  {
    TraceAppend(s.trace, FailureRecorded(x));
  }

  /** Once five failures are recorded, no request on the session starts any more. */
  lemma NoNewRequests(hmac: Hmac, s: State, step: Step, x: Digest)
    requires AttemptInv(s) && Apply(hmac, s, step).Some? && Failures(s.trace, x) >= MAX_ATTEMPTS
    ensures InFlight(Apply(hmac, s, step).value, x) <= InFlight(s, x)
  {
    assert SessionOk(s, x);
    ThreadsKeepPreAuth(hmac, s, step);
  }

  lemma OtherStepsRecordNothing(hmac: Hmac, s: State, step: Step, x: Digest)
    requires Apply(hmac, s, step).Some? && !(step.WriteFailure? && s.threads[step.t].pre.session == x)
    ensures Failures(Apply(hmac, s, step).value.trace, x) == Failures(s.trace, x)
  {
    var s' := Apply(hmac, s, step).value;
    if s'.trace != s.trace {
      TraceAppend(s.trace, s'.trace[|s'.trace| - 1]);
    }
  }

  lemma StretchedHolds(hmac: Hmac, s: State, step: Step, x: Digest, k: nat)
    requires AttemptInv(s) && Stretched(s, x, k) && Apply(hmac, s, step).Some?
    requires |InFlight(s, x)| <= k
    ensures Stretched(Apply(hmac, s, step).value, x, k)
  {
    var s' := Apply(hmac, s, step).value;
    if step.WriteFailure? && s.threads[step.t].pre.session == x {
      FailureLeavesFlight(hmac, s, step, x);
    } else {
      OtherStepsRecordNothing(hmac, s, step, x);
      if Failures(s.trace, x) > 4 {
        NoNewRequests(hmac, s, step, x);
        SubsetSize(InFlight(s', x), InFlight(s, x));
      }
    }
  }

  /** With at most `k` requests on it in flight, a session records at most 4 + k failures. */
  lemma {:induction false} FailuresAreBounded(hmac: Hmac, s0: State, steps: seq<Step>, x: Digest, k: nat)
    requires Initial(s0) && Run(hmac, s0, steps).Some? && AtMost(hmac, s0, steps, x, k)
    ensures Stretched(Run(hmac, s0, steps).value, x, k)
    ensures Failures(Run(hmac, s0, steps).value.trace, x) <= 4 + k
    decreases |steps|
  {
    if steps != [] {
      var front := steps[..|steps| - 1];
      AtMostBefore(hmac, s0, steps, x, k);
      FailuresAreBounded(hmac, s0, front, x, k);
      AttemptInvOverRun(hmac, s0, front);
      StretchedHolds(hmac, Run(hmac, s0, front).value, steps[|steps| - 1], x, k);
    }
  }
}
