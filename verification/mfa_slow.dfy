/** Slow requests: a TOTP step is matched by one clock and accepted by a later one. */
module MfaSlow {
  import Attempts = MfaAttempts
  import opened Bytes
  import opened MfaProtocol
  import opened MfaRuns
  import opened MfaSafety
  import opened MfaStore
  import opened Totp
  import opened Wrappers

  /** Requests that have matched a step of `e` before clock step `lo` and are about to write. */
  function Waiting(s: State, e: Id, lo: nat): set<Id> {
    set t | t in s.threads && s.threads[t].AcceptingStep? && s.threads[t].e == e && s.threads[t].clockStep < lo
  }

  /** The steps of `e` accepted in a trace. */
  function AcceptedIn(trace: seq<Event>, e: Id): seq<Accepted>
    decreases |trace|
  {
    if trace == [] then []
    else
      var before, v := AcceptedIn(trace[..|trace| - 1], e), trace[|trace| - 1];
      if v.StepAccepted? && v.e == e then before + [Accepted(v.step, v.clockStep)] else before
  }

  predicate NoConfirmation(trace: seq<Event>, e: Id) {
    forall v :: v in trace ==> !(v.EnrollmentConfirmed? && v.e == e)
  }

  lemma {:induction false} AcceptedSince(trace: seq<Event>, more: seq<Event>, e: Id)
    requires NoConfirmation(more, e)
    ensures StepsSinceConfirmation(trace + more, e) == StepsSinceConfirmation(trace, e) + AcceptedIn(more, e)
    decreases |more|
  {
    if more == [] {
      assert trace + more == trace;
    } else {
      var n := |more| - 1;
      assert more[n] in more;
      assert forall v :: v in more[..n] ==> v in more;
      AcceptedSince(trace, more[..n], e);
      assert trace + more == (trace + more[..n]) + [more[n]];
      TraceAppend(trace + more[..n], more[n]);
    }
  }

  /** How many of some acceptances were matched before clock step `lo`. */
  function Late(rs: seq<Accepted>, lo: nat): nat {
    if rs == [] then 0 else Late(rs[..|rs| - 1], lo) + if rs[|rs| - 1].clockStep < lo then 1 else 0
  }

  lemma {:induction false} LateAndMatched(rs: seq<Accepted>, lo: nat, hi: nat)
    requires forall i :: 0 <= i < |rs| ==> rs[i].clockStep <= hi
    ensures |rs| == Late(rs, lo) + CountMatchedIn(rs, lo, hi)
  {
    if rs != [] { LateAndMatched(rs[..|rs| - 1], lo, hi); }
  }

  lemma {:induction false} MatchedInPart(a: seq<Accepted>, b: seq<Accepted>, lo: int, hi: int)
    ensures CountMatchedIn(a + b, lo, hi) == CountMatchedIn(a, lo, hi) + CountMatchedIn(b, lo, hi)
    decreases |b|
  {
    if b == [] {
      assert a + b == a;
    } else {
      MatchedInPart(a, b[..|b| - 1], lo, hi);
      assert (a + b)[..|a + b| - 1] == a + b[..|b| - 1];
    }
  }

  // ---------- what a run adds ----------

  /** Since `start`, whose clock is in step `lo`: the trace grew, the clock did not run back, late
      acceptances came out of the waiting requests, and nothing was matched in the future. */
  ghost predicate Progress(start: State, s: State, e: Id, lo: nat) {
    && start.trace <= s.trace && start.clock <= s.clock
    && var more := AcceptedIn(s.trace[|start.trace|..], e);
    && Late(more, lo) + |Waiting(s, e, lo)| <= |Waiting(start, e, lo)|
    && (forall i :: 0 <= i < |more| ==> more[i].clockStep <= StepAt(s.clock))
    && (forall t :: t in s.threads && s.threads[t].AcceptingStep? ==> s.threads[t].clockStep <= StepAt(s.clock))
  }

  lemma LaterStep(a: Instant, b: Instant)
    requires a <= b
    ensures StepAt(a) <= StepAt(b)
  {
  }

  /** The step accepts a TOTP step of some enrollment, or leaves the acceptances as they are. */
  lemma StepOutcome(hmac: Hmac, s: State, step: Step, e: Id, lo: nat)
    requires Apply(hmac, s, step).Some? && lo <= StepAt(s.clock)
    ensures var next := Apply(hmac, s, step).value;
      && s.clock <= next.clock && Waiting(next, e, lo) <= Waiting(s, e, lo)
      && (next.trace == s.trace
          || exists v :: next.trace == s.trace + [v]
                         && (v.StepAccepted? ==> step.t in s.threads && s.threads[step.t].AcceptingStep? && s.threads[step.t].e == v.e
                                                 && s.threads[step.t].clockStep == v.clockStep && step.t !in next.threads))
      && (forall t :: t in next.threads && next.threads[t].AcceptingStep? ==>
        (t in s.threads && next.threads[t] == s.threads[t]) || next.threads[t].clockStep == StepAt(s.clock))
  {
    var next := Apply(hmac, s, step).value;
    if next.trace != s.trace {
      var v := next.trace[|s.trace|];
      assert next.trace == s.trace + [v];
    }
  }

  lemma AcceptedAppend(trace: seq<Event>, v: Event, e: Id)
    ensures AcceptedIn(trace + [v], e) ==
      if v.StepAccepted? && v.e == e then AcceptedIn(trace, e) + [Accepted(v.step, v.clockStep)] else AcceptedIn(trace, e)
  {
    assert (trace + [v])[..|trace|] == trace;
  }

  lemma LateAppend(rs: seq<Accepted>, r: Accepted, lo: nat)
    ensures Late(rs + [r], lo) == Late(rs, lo) + if r.clockStep < lo then 1 else 0
  {
    assert (rs + [r])[..|rs|] == rs;
  }

  /** An acceptance of `e` counts as late only if its request was waiting, which it no longer is. */
  lemma AcceptanceIsCounted(s: State, next: State, t: Id, v: Event, more: seq<Event>, e: Id, lo: nat)
    requires v.StepAccepted? && t in s.threads && s.threads[t].AcceptingStep? && s.threads[t].e == v.e
    requires s.threads[t].clockStep == v.clockStep && t !in next.threads && Waiting(next, e, lo) <= Waiting(s, e, lo)
    ensures Late(AcceptedIn(more + [v], e), lo) + |Waiting(next, e, lo)| <= Late(AcceptedIn(more, e), lo) + |Waiting(s, e, lo)|
  {
    AcceptedAppend(more, v, e);
    Attempts.SubsetSize(Waiting(next, e, lo), Waiting(s, e, lo));
    if v.e == e {
      LateAppend(AcceptedIn(more, e), Accepted(v.step, v.clockStep), lo);
      if v.clockStep < lo {
        assert t in Waiting(s, e, lo);
        Attempts.SubsetSize(Waiting(next, e, lo), Waiting(s, e, lo) - {t});
      }
    }
  }

  lemma ProgressHolds(hmac: Hmac, start: State, s: State, step: Step, e: Id)
    requires Apply(hmac, s, step).Some? && Progress(start, s, e, StepAt(start.clock))
    ensures Progress(start, Apply(hmac, s, step).value, e, StepAt(start.clock))
  {
    var lo, next, n := StepAt(start.clock), Apply(hmac, s, step).value, |start.trace|;
    LaterStep(start.clock, s.clock);
    StepOutcome(hmac, s, step, e, lo);
    LaterStep(s.clock, next.clock);
    Attempts.SubsetSize(Waiting(next, e, lo), Waiting(s, e, lo));
    if next.trace != s.trace {
      var v := next.trace[|s.trace|];
      assert next.trace == s.trace + [v];
      assert next.trace[n..] == s.trace[n..] + [v];
      AcceptedAppend(s.trace[n..], v, e);
      if v.StepAccepted? {
        AcceptanceIsCounted(s, next, step.t, v, s.trace[n..], e, lo);
      }
    }
  }

  lemma {:induction false} ProgressOverRun(hmac: Hmac, start: State, steps: seq<Step>, e: Id)
    requires Run(hmac, start, steps).Some? && Progress(start, start, e, StepAt(start.clock))
    ensures Progress(start, Run(hmac, start, steps).value, e, StepAt(start.clock))
    decreases |steps|
  {
    if steps != [] {
      ProgressOverRun(hmac, start, steps[..|steps| - 1], e);
      ProgressHolds(hmac, start, Run(hmac, start, steps[..|steps| - 1]).value, steps[|steps| - 1], e);
    }
  }

  /** In every reachable state no request has matched by a clock that is still to come. */
  lemma {:induction false} ClocksAreRead(hmac: Hmac, s0: State, steps: seq<Step>)
    requires Initial(s0) && Run(hmac, s0, steps).Some?
    ensures var s := Run(hmac, s0, steps).value;
      forall t :: t in s.threads && s.threads[t].AcceptingStep? ==> s.threads[t].clockStep <= StepAt(s.clock)
    decreases |steps|
  {
    if steps != [] {
      var before := Run(hmac, s0, steps[..|steps| - 1]).value;
      ClocksAreRead(hmac, s0, steps[..|steps| - 1]);
      StepOutcome(hmac, before, steps[|steps| - 1], 0, 0);
      LaterStep(before.clock, Run(hmac, s0, steps).value.clock);
    }
  }

  /** By the clock at the write: from a reachable state in clock step `lo`, a run to clock step `hi` without
      a confirmation of `e` accepts at most hi - lo + 3 of its steps, and one more for every request that was
      waiting with a step matched before `lo`. */
  lemma AcceptedByTheClockOfTheWrite(hmac: Hmac, start: State, steps: seq<Step>, e: Id)
    requires Reachable(hmac, start) && Run(hmac, start, steps).Some?
    requires var s := Run(hmac, start, steps).value; |start.trace| <= |s.trace| ==> NoConfirmation(s.trace[|start.trace|..], e)
    ensures var s, lo := Run(hmac, start, steps).value, StepAt(start.clock);
      && start.trace <= s.trace && lo <= StepAt(s.clock)
      && |AcceptedIn(s.trace[|start.trace|..], e)| <= StepAt(s.clock) - lo + 3 + |Waiting(start, e, lo)|
  {
    var s0, before :| Initial(s0) && Run(hmac, s0, before) == Some(start);
    var s, lo := Run(hmac, start, steps).value, StepAt(start.clock);
    ClocksAreRead(hmac, s0, before);
    assert start.trace[|start.trace|..] == [];
    ProgressOverRun(hmac, start, steps, e);
    RunConcat(hmac, s0, before, steps);
    assert Reachable(hmac, s);
    LaterStep(start.clock, s.clock);
    AcceptedStepsIncrease(hmac, s, e, lo, StepAt(s.clock));
    var more := s.trace[|start.trace|..];
    assert s.trace == start.trace + more;
    AcceptedSince(start.trace, more, e);
    MatchedInPart(StepsSinceConfirmation(start.trace, e), AcceptedIn(more, e), lo, StepAt(s.clock));
    LateAndMatched(AcceptedIn(more, e), lo, StepAt(s.clock));
  }

  /** What a caller can ensure: when no request is waiting, at most hi - lo + 3 steps are accepted. */
  lemma NobodyWaiting(hmac: Hmac, start: State, steps: seq<Step>, e: Id)
    requires Reachable(hmac, start) && Run(hmac, start, steps).Some? && Waiting(start, e, StepAt(start.clock)) == {}
    requires var s := Run(hmac, start, steps).value; |start.trace| <= |s.trace| ==> NoConfirmation(s.trace[|start.trace|..], e)
    ensures var s := Run(hmac, start, steps).value;
      start.trace <= s.trace && |AcceptedIn(s.trace[|start.trace|..], e)| <= StepAt(s.clock) - StepAt(start.clock) + 3
  {
    AcceptedByTheClockOfTheWrite(hmac, start, steps, e);
  }

  // ---------- a run beyond hi - lo + 3 ----------

  /** Session number `i`. */
  function Token(i: nat): Digest {
    Sha256(seq(i, _ => 'a'))
  }

  lemma TokensDiffer(i: nat, j: nat)
    requires Token(i) == Token(j)
    ensures i == j
  {
    assert |seq(i, _ => 'a')| == |seq(j, _ => 'a')|;
  }

  lemma EnrolIsNoToken(i: nat)
    ensures Token(i) != ENROL
  {
    if i > 0 { assert seq(i, _ => 'a')[0] == 'a'; }
  }

  /** From clock step `n` on, each of `k` requests has matched its own step, one clock step after another,
      and none has written. */
  ghost predicate Queued(s: State, key: seq<byte>, since: Instant, n: nat, k: nat) {
    && StepAt(s.clock) == n + k && s.trace == [EnrollmentConfirmed(0, 0)]
    && 0 in s.db.accounts && s.db.accounts[0] == Account(true, true)
    && OneEnrollment(s, ActiveRow(key, since))
    && (forall i: nat :: Token(i) in s.db.sessions ==> i < k)
    && (forall t: Id :: t in s.threads <==> t < k)
    && (forall t :: t in s.threads ==> s.threads[t] == AcceptingStep(PreAuth(Token(t), 0, 0), 0, n + t, n + t + 1))
  }

  /** Request `k` logs in one clock step later. */
  lemma QueueLogin(hmac: Hmac, s: State, key: seq<byte>, since: Instant, n: nat, k: nat) returns (steps: seq<Step>, s2: State)
    requires Queued(s, key, since, n, k) && s.clock + TOTP_STEP_MS <= MAX_DATE_MS
    ensures Run(hmac, s, steps) == Some(s2) && StepAt(s2.clock) == n + k + 1 && s2.clock == s.clock + TOTP_STEP_MS
    ensures s2 == s.(clock := s2.clock, db := CreateSession(s.db, Token(k), 0, ChallengePurpose, s2.clock))
  {
    var to: Instant := s.clock + TOTP_STEP_MS;
    s2 := s.(clock := to, db := CreateSession(s.db, Token(k), 0, ChallengePurpose, to));
    steps := [] + [Tick(to)] + [Login(Token(k), 0, ChallengePurpose)];
    OneMore(hmac, s, [], Tick(to));
    OneMore(hmac, s, [] + [Tick(to)], Login(Token(k), 0, ChallengePurpose));
  }

  /** It validates its session and reads the enrollment. */
  lemma QueueRead(hmac: Hmac, s: State, key: seq<byte>, since: Instant, x: Digest, t: Id, code: string, next: State)
    returns (steps: seq<Step>)
    requires t !in s.threads && OpenSession(s, x, ChallengePurpose) && OneEnrollment(s, ActiveRow(key, since))
    requires next == s.(threads := s.threads[t := Matching(PreAuth(x, 0, 0), 0, None, key, code)])
    ensures Run(hmac, s, steps) == Some(next)
  {
    var r := TotpChallenge(code);
    var s1 := s.(threads := s.threads[t := Validated(PreAuth(x, 0, 0), r)]);
    steps := [] + [Begin(t, x, r)] + [ReadEnrollment(t, Some(0))];
    Begins(hmac, s, t, x, r);
    OneMore(hmac, s, [], Begin(t, x, r));
    OnlyOneIsFirst(s1.db, ActiveRow(key, since));
    assert s1.threads[t := next.threads[t]] == next.threads;
    OneMore(hmac, s, [] + [Begin(t, x, r)], ReadEnrollment(t, Some(0)));
  }

  /** Its code, of the clock step before, is matched. */
  lemma QueueMatch(hmac: Hmac, s: State, pre: PreAuth, key: seq<byte>, code: string, t: Id, m: nat, current: nat, next: State)
    returns (steps: seq<Step>)
    requires t in s.threads && s.threads[t] == Matching(pre, 0, None, key, code) && current == StepAt(s.clock)
    requires MatchedStep(hmac, key, code, current) == Some(m)
    requires next == s.(threads := s.threads[t := AcceptingStep(pre, 0, m, current)])
    ensures Run(hmac, s, steps) == Some(next)
  {
    MatchIs(hmac, s, t, pre, None, key, code, Some(m));
    steps := OneStep(hmac, s, Match(t), next);
  }

  lemma MatchIs(hmac: Hmac, s: State, t: Id, pre: PreAuth, seen: Option<nat>, key: seq<byte>, code: string, m: Option<nat>)
    requires t in s.threads && s.threads[t] == Matching(pre, 0, seen, key, code) && m == MatchedStep(hmac, key, code, StepAt(s.clock))
    ensures Apply(hmac, s, Match(t)) == Some(s.(threads := s.threads[t :=
      if m.None? || (seen.Some? && m.value <= seen.value) then Failing(pre) else AcceptingStep(pre, 0, m.value, StepAt(s.clock))]))
  {
  }

  lemma LateCode(hmac: Hmac, key: seq<byte>, m: nat) returns (code: string)
    ensures MatchedStep(hmac, key, code, m + 1) == Some(m)
  {
    code := CodeAt(hmac, key, m);
    CodeMatches(hmac, key, m, m + 1, code);
  }

  lemma LateCodeRuns(hmac: Hmac, s: State, pre: PreAuth, key: seq<byte>, code: string, t: Id, m: nat) returns (steps: seq<Step>)
    requires t in s.threads && s.threads[t] == Matching(pre, 0, None, key, code) && StepAt(s.clock) == m + 1
    requires MatchedStep(hmac, key, code, m + 1) == Some(m)
    ensures Run(hmac, s, steps) == Some(s.(threads := s.threads[t := AcceptingStep(pre, 0, m, m + 1)]))
  {
    var next := s.(threads := s.threads[t := AcceptingStep(pre, 0, m, m + 1)]);
    steps := QueueMatch(hmac, s, pre, key, code, t, m, m + 1, next);
  }

  lemma SomeCodeIsLate(hmac: Hmac, s: State, pre: PreAuth, key: seq<byte>, t: Id, m: nat)
    returns (code: string, steps: seq<Step>)
    requires StepAt(s.clock) == m + 1
    ensures Run(hmac, s.(threads := s.threads[t := Matching(pre, 0, None, key, code)]), steps)
      == Some(s.(threads := s.threads[t := AcceptingStep(pre, 0, m, m + 1)]))
  {
    code := LateCode(hmac, key, m);
    var s1 := s.(threads := s.threads[t := Matching(pre, 0, None, key, code)]);
    steps := LateCodeRuns(hmac, s1, pre, key, code, t, m);
    SetAgain(s.threads, t, Matching(pre, 0, None, key, code), AcceptingStep(pre, 0, m, m + 1));
  }

  lemma SetAgain(m: map<Id, Thread>, t: Id, a: Thread, b: Thread)
    ensures m[t := a][t := b] == m[t := b]
  {
  }

  lemma OneMoreQueued(hmac: Hmac, s: State, key: seq<byte>, since: Instant, n: nat, k: nat) returns (steps: seq<Step>, next: State)
    requires Queued(s, key, since, n, k) && s.clock + TOTP_STEP_MS <= MAX_DATE_MS
    ensures Run(hmac, s, steps) == Some(next) && next.clock == s.clock + TOTP_STEP_MS && Queued(next, key, since, n, k + 1)
  {
    var logIn, s2 := QueueLogin(hmac, s, key, since, n, k);
    var pre := PreAuth(Token(k), 0, 0);
    var code, match_ := SomeCodeIsLate(hmac, s2, pre, key, k, n + k);
    var s3 := s2.(threads := s2.threads[k := Matching(pre, 0, None, key, code)]);
    var read := QueueRead(hmac, s2, key, since, Token(k), k, code, s3);
    next := s2.(threads := s2.threads[k := AcceptingStep(pre, 0, n + k, n + k + 1)]);
    RunConcat(hmac, s, logIn, read);
    RunConcat(hmac, s, logIn + read, match_);
    steps := logIn + read + match_;
    QueueGrows(s, next, key, since, n, k);
  }

  lemma QueueGrows(s: State, next: State, key: seq<byte>, since: Instant, n: nat, k: nat)
    requires Queued(s, key, since, n, k) && StepAt(next.clock) == n + k + 1
    requires next.db == CreateSession(s.db, Token(k), 0, ChallengePurpose, next.clock) && next.trace == s.trace
    requires next.threads == s.threads[k := AcceptingStep(PreAuth(Token(k), 0, 0), 0, n + k, n + k + 1)]
    ensures Queued(next, key, since, n, k + 1)
  {
    forall i: nat | Token(i) in next.db.sessions ensures i < k + 1 {
      if Token(i) == Token(k) { TokensDiffer(i, k); }
    }
  }

  lemma {:induction false} QueueUp(hmac: Hmac, s: State, key: seq<byte>, since: Instant, n: nat, k: nat)
    returns (steps: seq<Step>, next: State)
    requires Queued(s, key, since, n, 0) && s.clock + k * TOTP_STEP_MS <= MAX_DATE_MS
    ensures Run(hmac, s, steps) == Some(next) && next.clock == s.clock + k * TOTP_STEP_MS && Queued(next, key, since, n, k)
    decreases k
  {
    if k == 0 {
      steps, next := [], s;
    } else {
      var before, mid := QueueUp(hmac, s, key, since, n, k - 1);
      var more, last := OneMoreQueued(hmac, mid, key, since, n, k - 1);
      RunConcat(hmac, s, before, more);
      steps, next := before + more, last;
    }
  }

  /** The first `j` of the queued requests have written. */
  ghost predicate Drained(start: State, s: State, n: nat, k: nat, j: nat) {
    && s.clock == start.clock && start.trace <= s.trace
    && 0 in s.db.enrollments && s.db.enrollments[0].lastVerifiedStep == (if j == 0 then None else Some(n + j - 1))
    && (forall t :: j <= t < k ==> t in s.threads && s.threads[t] == AcceptingStep(PreAuth(Token(t), 0, 0), 0, n + t, n + t + 1))
    && |AcceptedIn(s.trace[|start.trace|..], 0)| == j && NoConfirmation(s.trace[|start.trace|..], 0)
  }

  lemma WritesNext(hmac: Hmac, s: State, t: Id, pre: PreAuth, m: nat, c: nat) returns (steps: seq<Step>, next: State)
    requires t in s.threads && s.threads[t] == AcceptingStep(pre, 0, m, c) && 0 in s.db.enrollments
    requires s.db.enrollments[0].lastVerifiedStep.Some? ==> s.db.enrollments[0].lastVerifiedStep.value < m
    ensures Run(hmac, s, steps) == Some(next)
    ensures next.clock == s.clock && next.trace == s.trace + [StepAccepted(0, m, c)] && next.threads == s.threads - {t}
    ensures 0 in next.db.enrollments && next.db.enrollments[0].lastVerifiedStep == Some(m)
  {
    steps := [] + [WriteAcceptance(t)];
    OneMore(hmac, s, [], WriteAcceptance(t));
    next := Run(hmac, s, steps).value;
  }

  lemma {:induction false} Drain(hmac: Hmac, start: State, n: nat, k: nat, j: nat) returns (steps: seq<Step>, s: State)
    requires Drained(start, start, n, k, 0) && j <= k
    ensures Run(hmac, start, steps) == Some(s) && Drained(start, s, n, k, j)
    decreases j
  {
    if j == 0 {
      steps, s := [], start;
    } else {
      var before, mid := Drain(hmac, start, n, k, j - 1);
      var write, next := DrainOne(hmac, start, mid, n, k, j);
      RunConcat(hmac, start, before, write);
      steps, s := before + write, next;
    }
  }

  lemma DrainOne(hmac: Hmac, start: State, mid: State, n: nat, k: nat, j: nat) returns (steps: seq<Step>, s: State)
    requires 0 < j <= k && Drained(start, mid, n, k, j - 1)
    ensures Run(hmac, mid, steps) == Some(s) && Drained(start, s, n, k, j)
  {
    steps, s := WritesNext(hmac, mid, j - 1, PreAuth(Token(j - 1), 0, 0), n + j - 1, n + j);
    DrainedOneMore(start, mid, s, n, k, j);
  }

  lemma DrainedOneMore(start: State, mid: State, s: State, n: nat, k: nat, j: nat)
    requires 0 < j <= k && Drained(start, mid, n, k, j - 1) && s.clock == mid.clock && s.threads == mid.threads - {j - 1}
    requires s.trace == mid.trace + [StepAccepted(0, n + j - 1, n + j)]
    requires 0 in s.db.enrollments && s.db.enrollments[0].lastVerifiedStep == Some(n + j - 1)
    ensures Drained(start, s, n, k, j)
  {
    var v := StepAccepted(0, n + j - 1, n + j);
    assert s.trace[|start.trace|..] == mid.trace[|start.trace|..] + [v];
    AcceptedAppend(mid.trace[|start.trace|..], v, 0);
  }

  lemma EnrolledIsQueued(s: State, key: seq<byte>, digests: seq<Digest>, now: Instant)
    requires Enrolled(s, key, digests, now)
    ensures Queued(s, key, now, StepAt(now), 0)
  {
    forall i: nat ensures Token(i) !in s.db.sessions {
      EnrolIsNoToken(i);
    }
  }

  lemma QueuedIsDrained(s: State, key: seq<byte>, since: Instant, n: nat, k: nat)
    requires Queued(s, key, since, n, k)
    ensures Drained(s, s, n, k, 0)
  {
    assert s.trace[|s.trace|..] == [];
  }

  /** With any HMAC and key, and any number `k` of slow requests, a reachable state has a run in which `k`
      steps of one enrollment are accepted while the clock stands still. */
  lemma ManyAtOnce(hmac: Hmac, key: seq<byte>, now: Instant, k: nat) returns (start: State, steps: seq<Step>, end: State)
    requires now + k * TOTP_STEP_MS <= MAX_DATE_MS
    ensures Reachable(hmac, start) && Run(hmac, start, steps) == Some(end) && end.clock == start.clock
    ensures start.trace <= end.trace && NoConfirmation(end.trace[|start.trace|..], 0)
    ensures |AcceptedIn(end.trace[|start.trace|..], 0)| == k
  {
    var digests := TenDigests();
    TenAreDifferent();
    var enrol := Enrolls(hmac, key, digests, now);
    var enrolled := Run(hmac, Nothing(now), enrol).value;
    EnrolledIsQueued(enrolled, key, digests, now);
    var queue, queued := QueueUp(hmac, enrolled, key, now, StepAt(now), k);
    RunConcat(hmac, Nothing(now), enrol, queue);
    start := queued;
    QueuedIsDrained(start, key, now, StepAt(now), k);
    steps, end := Drain(hmac, start, StepAt(now), k, k);
  }

  /** So the bound does not hold without the waiting requests: four acceptances in one clock step. */
  lemma FourAtOnce(hmac: Hmac, key: seq<byte>) returns (start: State, steps: seq<Step>, end: State)
    ensures Reachable(hmac, start) && Run(hmac, start, steps) == Some(end) && start.trace <= end.trace
    ensures |AcceptedIn(end.trace[|start.trace|..], 0)| > StepAt(end.clock) - StepAt(start.clock) + 3
  {
    start, steps, end := ManyAtOnce(hmac, key, 0, 4);
  }
}
