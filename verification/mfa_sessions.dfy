/** How often one pre-authentication session can be used. Its `consumedAt` is written without a condition,
    so overlapping requests can use it more than once, but no request starts after the first use. */
module MfaSessions {
  import opened MfaAttempts
  import opened MfaProtocol
  import Runs = MfaRuns
  import opened MfaSafety
  import opened MfaStore
  import opened Bytes
  import opened Totp
  import opened Wrappers

  ghost predicate Consumed(s: State, x: Digest) {
    x in s.db.sessions && s.db.sessions[x].consumedAt.Some?
  }

  /** The step completes a confirmation or a challenge on session `x`. */
  ghost predicate Succeeds(hmac: Hmac, s: State, step: Step, x: Digest) {
    && (step.WriteAcceptance? || step.WriteConfirmation?) && step.t in s.threads && s.threads[step.t].pre.session == x
    && Apply(hmac, s, step).Some? && Apply(hmac, s, step).value.trace != s.trace
  }

  /** How often a run used session `x`. */
  ghost function UsesOf(hmac: Hmac, s0: State, steps: seq<Step>, x: Digest): nat
    requires Run(hmac, s0, steps).Some?
    decreases |steps|
  {
    if steps == [] then 0
    else
      var front, last := steps[..|steps| - 1], steps[|steps| - 1];
      UsesOf(hmac, s0, front, x) + if Succeeds(hmac, Run(hmac, s0, front).value, last, x) then 1 else 0
  }

  lemma ConsumedStays(hmac: Hmac, s: State, step: Step, x: Digest)
    requires Apply(hmac, s, step).Some? && Consumed(s, x)
    ensures Consumed(Apply(hmac, s, step).value, x)
  {
  }

  lemma {:induction false} ConsumedOverRun(hmac: Hmac, s: State, steps: seq<Step>, x: Digest)
    requires Run(hmac, s, steps).Some? && Consumed(s, x)
    ensures Consumed(Run(hmac, s, steps).value, x)
    decreases |steps|
  {
    if steps != [] {
      ConsumedOverRun(hmac, s, steps[..|steps| - 1], x);
      ConsumedStays(hmac, Run(hmac, s, steps[..|steps| - 1]).value, steps[|steps| - 1], x);
    }
  }

  /** A consumed session never validates again, in any continuation. */
  lemma ConsumedNeverValidates(hmac: Hmac, s: State, x: Digest, steps: seq<Step>, t: Id, r: Request)
    requires Consumed(s, x) && Run(hmac, s, steps).Some?
    ensures Apply(hmac, Run(hmac, s, steps).value, Begin(t, x, r)).None?
  {
    ConsumedOverRun(hmac, s, steps, x);
  }

  lemma UseEndsItsRequest(hmac: Hmac, s: State, step: Step, x: Digest)
    requires AttemptInv(s) && Succeeds(hmac, s, step, x)
    ensures var next := Apply(hmac, s, step).value;
      Consumed(next, x) && InFlight(next, x) == InFlight(s, x) - {step.t} && step.t in InFlight(s, x)
  {
    assert ThreadOk(s, s.threads[step.t]);
  }

  lemma NoNewRequestOnConsumed(hmac: Hmac, s: State, step: Step, x: Digest)
    requires Apply(hmac, s, step).Some? && Consumed(s, x)
    ensures InFlight(Apply(hmac, s, step).value, x) <= InFlight(s, x)
  {
    ThreadsKeepPreAuth(hmac, s, step);
  }

  ghost predicate Bounded(s: State, x: Digest, uses: nat, k: nat) {
    uses == 0 || (Consumed(s, x) && uses + |InFlight(s, x)| <= k)
  }

  lemma BoundHolds(hmac: Hmac, s: State, step: Step, x: Digest, uses: nat, k: nat)
    requires AttemptInv(s) && Apply(hmac, s, step).Some? && Bounded(s, x, uses, k)
    requires |InFlight(s, x)| <= k
    ensures Bounded(Apply(hmac, s, step).value, x, uses + if Succeeds(hmac, s, step, x) then 1 else 0, k)
  {
    var next := Apply(hmac, s, step).value;
    if Succeeds(hmac, s, step, x) {
      UseEndsItsRequest(hmac, s, step, x);
    } else if uses > 0 {
      ConsumedStays(hmac, s, step, x);
      NoNewRequestOnConsumed(hmac, s, step, x);
      SubsetSize(InFlight(next, x), InFlight(s, x));
    }
  }

  /** With at most `k` requests on it in flight, a session is used at most `k` times: once, when its
      requests follow each other. */
  lemma {:induction false} UsesAreBounded(hmac: Hmac, s0: State, steps: seq<Step>, x: Digest, k: nat)
    requires Initial(s0) && Run(hmac, s0, steps).Some? && AtMost(hmac, s0, steps, x, k)
    ensures Bounded(Run(hmac, s0, steps).value, x, UsesOf(hmac, s0, steps, x), k)
    ensures UsesOf(hmac, s0, steps, x) <= k
    decreases |steps|
  {
    if steps != [] {
      var front := steps[..|steps| - 1];
      AtMostBefore(hmac, s0, steps, x, k);
      UsesAreBounded(hmac, s0, front, x, k);
      AttemptInvOverRun(hmac, s0, front);
      BoundHolds(hmac, Run(hmac, s0, front).value, steps[|steps| - 1], x, UsesOf(hmac, s0, front, x), k);
    }
  }

  // ---------- exactly when a session is used again ----------

  /** Step `i` of the run used session `x` while request `t`, another one, was already in flight on it. */
  ghost predicate UsedBeside(hmac: Hmac, s0: State, steps: seq<Step>, x: Digest, t: Id, i: nat) {
    i < |steps| && Run(hmac, s0, steps[..i]).Some?
    && var s := Run(hmac, s0, steps[..i]).value;
    Succeeds(hmac, s, steps[i], x) && steps[i].t != t && t in InFlight(s, x)
  }

  lemma {:induction false} RunOfPrefix(hmac: Hmac, s0: State, steps: seq<Step>, i: nat)
    requires Run(hmac, s0, steps).Some? && i <= |steps|
    ensures Run(hmac, s0, steps[..i]).Some?
    decreases |steps|
  {
    if i == |steps| {
      assert steps[..i] == steps;
    } else {
      var front := steps[..|steps| - 1];
      assert front[..i] == steps[..i];
      RunOfPrefix(hmac, s0, front, i);
    }
  }

  /** A use counts for all later states. */
  lemma {:induction false} UseIsCounted(hmac: Hmac, s0: State, steps: seq<Step>, x: Digest, i: nat)
    requires Run(hmac, s0, steps).Some? && i < |steps| && Run(hmac, s0, steps[..i]).Some?
    requires Succeeds(hmac, Run(hmac, s0, steps[..i]).value, steps[i], x)
    ensures UsesOf(hmac, s0, steps, x) > 0
    decreases |steps|
  {
    var front := steps[..|steps| - 1];
    if i < |front| {
      assert front[..i] == steps[..i];
      UseIsCounted(hmac, s0, front, x, i);
    } else {
      assert steps[..i] == front;
    }
  }

  /** Whoever is in flight on a used session was so at an earlier use by another request. */
  lemma {:induction false} InFlightSinceUse(hmac: Hmac, s0: State, steps: seq<Step>, x: Digest, t: Id)
    requires Initial(s0) && Run(hmac, s0, steps).Some? && UsesOf(hmac, s0, steps, x) > 0
    requires t in InFlight(Run(hmac, s0, steps).value, x)
    ensures Consumed(Run(hmac, s0, steps).value, x)
    ensures exists i: nat :: UsedBeside(hmac, s0, steps, x, t, i)
    decreases |steps|
  {
    var front, last := steps[..|steps| - 1], steps[|steps| - 1];
    var s := Run(hmac, s0, front).value;
    AttemptInvOverRun(hmac, s0, front);
    if Succeeds(hmac, s, last, x) {
      UseEndsItsRequest(hmac, s, last, x);
      assert UsedBeside(hmac, s0, steps, x, t, |front|);
    } else {
      UsedIsConsumed(hmac, s0, front, x);
      ConsumedStays(hmac, s, last, x);
      NoNewRequestOnConsumed(hmac, s, last, x);
      InFlightSinceUse(hmac, s0, front, x, t);
      var i: nat :| UsedBeside(hmac, s0, front, x, t, i);
      assert front[..i] == steps[..i];
      assert UsedBeside(hmac, s0, steps, x, t, i);
    }
  }

  lemma {:induction false} UsedIsConsumed(hmac: Hmac, s0: State, steps: seq<Step>, x: Digest)
    requires Initial(s0) && Run(hmac, s0, steps).Some? && UsesOf(hmac, s0, steps, x) > 0
    ensures Consumed(Run(hmac, s0, steps).value, x)
    decreases |steps|
  {
    var front, last := steps[..|steps| - 1], steps[|steps| - 1];
    var s := Run(hmac, s0, front).value;
    AttemptInvOverRun(hmac, s0, front);
    if Succeeds(hmac, s, last, x) {
      UseEndsItsRequest(hmac, s, last, x);
    } else {
      UsedIsConsumed(hmac, s0, front, x);
      ConsumedStays(hmac, s, last, x);
    }
  }

  /** The exact condition: a success uses a session that was used before if and only if its request was
      already in flight when another request used the session. */
  lemma UsedAgainExactly(hmac: Hmac, s0: State, steps: seq<Step>, step: Step, x: Digest)
    requires Initial(s0) && Run(hmac, s0, steps).Some? && Succeeds(hmac, Run(hmac, s0, steps).value, step, x)
    ensures UsesOf(hmac, s0, steps, x) > 0 <==> exists i: nat :: UsedBeside(hmac, s0, steps, x, step.t, i)
  {
    if UsesOf(hmac, s0, steps, x) > 0 {
      InFlightSinceUse(hmac, s0, steps, x, step.t);
    }
    if i: nat :| UsedBeside(hmac, s0, steps, x, step.t, i) {
      UseIsCounted(hmac, s0, steps, x, i);
    }
  }

  /** Before step `i`, no other request is in flight on session `x` beside `t`. */
  ghost predicate AloneAt(hmac: Hmac, s0: State, steps: seq<Step>, x: Digest, t: Id, i: nat) {
    i < |steps| && Run(hmac, s0, steps[..i]).Some? ==>
      var flight := InFlight(Run(hmac, s0, steps[..i]).value, x); t in flight ==> flight <= {t}
  }

  lemma AloneIsNotBeside(hmac: Hmac, s0: State, steps: seq<Step>, x: Digest, t: Id, i: nat)
    requires AloneAt(hmac, s0, steps, x, t, i)
    ensures !UsedBeside(hmac, s0, steps, x, t, i)
  {
    if UsedBeside(hmac, s0, steps, x, t, i) {
      UserIsInFlight(hmac, Run(hmac, s0, steps[..i]).value, steps[i], x);
    }
  }

  lemma UserIsInFlight(hmac: Hmac, s: State, step: Step, x: Digest)
    requires Succeeds(hmac, s, step, x)
    ensures step.t in InFlight(s, x)
  {
  }

  /** What a caller can ensure: a request that was alone on its session whenever it was in flight has a
      session that was not used before. */
  lemma AloneUsesFresh(hmac: Hmac, s0: State, steps: seq<Step>, step: Step, x: Digest)
    requires Initial(s0) && Run(hmac, s0, steps).Some? && Succeeds(hmac, Run(hmac, s0, steps).value, step, x)
    requires forall i: nat :: AloneAt(hmac, s0, steps, x, step.t, i)
    ensures UsesOf(hmac, s0, steps, x) == 0
  {
    UsedAgainExactly(hmac, s0, steps, step, x);
    if i: nat :| UsedBeside(hmac, s0, steps, x, step.t, i) {
      AloneIsNotBeside(hmac, s0, steps, x, step.t, i);
    }
  }

  // ---------- two uses ----------

  lemma OneMore(hmac: Hmac, s: State, steps: seq<Step>, step: Step)
    requires Run(hmac, s, steps).Some?
    ensures Run(hmac, s, steps + [step]) == Apply(hmac, Run(hmac, s, steps).value, step)
    ensures Run(hmac, s, steps + [step]).Some? ==> forall x ::
      UsesOf(hmac, s, steps + [step], x)
        == UsesOf(hmac, s, steps, x) + if Succeeds(hmac, Run(hmac, s, steps).value, step, x) then 1 else 0
  {
    assert (steps + [step])[..|steps|] == steps;
  }

  /** Two recovery challenges that have found their codes on session `x`. */
  ghost predicate BothFound(s: State, x: Digest, e: Id, c: Digest, d: Digest) {
    && x in s.db.sessions && c != d && c in s.db.codes && d in s.db.codes
    && s.threads.Keys == {0, 1} && s.threads[0].AcceptingCode? && s.threads[1].AcceptingCode?
    && s.threads[0].pre.session == s.threads[1].pre.session == x && s.threads[0].pre.userId == s.threads[1].pre.userId
    && s.threads[0].e == s.threads[1].e == e && s.threads[0].digest == c && s.threads[1].digest == d
    && s.threads[0].codeId == s.db.codes[c].id && s.threads[1].codeId == s.db.codes[d].id
    && UsableCode(s.db, c, s.threads[0].pre.userId, e) && UsableCode(s.db, d, s.threads[0].pre.userId, e)
  }

  /** Their writes both succeed, so the session is used twice. */
  lemma UsedTwice(hmac: Hmac, s: State, x: Digest, e: Id, c: Digest, d: Digest)
    requires BothFound(s, x, e, c, d)
    ensures var steps := [] + [WriteAcceptance(0)] + [WriteAcceptance(1)];
      Run(hmac, s, steps).Some? && UsesOf(hmac, s, steps, x) == 2
  {
    OneMore(hmac, s, [], WriteAcceptance(0));
    assert Succeeds(hmac, s, WriteAcceptance(0), x);
    OneMore(hmac, s, [] + [WriteAcceptance(0)], WriteAcceptance(1));
    assert Succeeds(hmac, Run(hmac, s, [] + [WriteAcceptance(0)]).value, WriteAcceptance(1), x);
  }

  /** Two recovery challenges on session `x` have read the enrollment. */
  ghost predicate BothReading(s: State, pre: PreAuth, e: Id, c: Digest, d: Digest) {
    s.threads == map[0 := ReadingCode(pre, e, c), 1 := ReadingCode(pre, e, d)]
  }

  function Reading(x: Digest, e: Id, a: string, b: string): seq<Step> {
    [] + [Begin(0, x, RecoveryChallenge(a))] + [Begin(1, x, RecoveryChallenge(b))] + [ReadEnrollment(0, Some(e))]
    + [ReadEnrollment(1, Some(e))]
  }

  lemma TwoRequestsBegin(hmac: Hmac, s: State, x: Digest, a: Request, b: Request)
    requires s.threads == map[] && PurposeOf(a) == PurposeOf(b) && ValidatePreAuth(s.db, x, PurposeOf(a), s.clock).Some?
    ensures var pre := ValidatePreAuth(s.db, x, PurposeOf(a), s.clock).value;
      Run(hmac, s, [] + [Begin(0, x, a)] + [Begin(1, x, b)]) ==
        Some(s.(threads := map[0 := Validated(pre, a), 1 := Validated(pre, b)]))
  {
    OneMore(hmac, s, [], Begin(0, x, a));
    OneMore(hmac, s, [] + [Begin(0, x, a)], Begin(1, x, b));
  }

  lemma ReadsEnrollment(hmac: Hmac, s: State, t: Id, pre: PreAuth, code: string, e: Id)
    requires t in s.threads && s.threads[t] == Validated(pre, RecoveryChallenge(code)) && FirstEligible(s.db, pre.userId, Active, e)
    ensures Apply(hmac, s, ReadEnrollment(t, Some(e))) == Some(s.(threads := s.threads[t := ReadingCode(pre, e, CodeDigest(code))]))
  {
  }

  lemma TwoRequestsRead(hmac: Hmac, s: State, x: Digest, e: Id, a: string, b: string)
    requires s.threads == map[] && ValidatePreAuth(s.db, x, ChallengePurpose, s.clock).Some?
    requires FirstEligible(s.db, s.db.sessions[x].userId, Active, e)
    ensures var r := Run(hmac, s, Reading(x, e, a, b));
      r.Some? && r.value.db == s.db
      && BothReading(r.value, ValidatePreAuth(s.db, x, ChallengePurpose, s.clock).value, e, CodeDigest(a), CodeDigest(b))
  {
    var begun := [] + [Begin(0, x, RecoveryChallenge(a))] + [Begin(1, x, RecoveryChallenge(b))];
    TwoRequestsBegin(hmac, s, x, RecoveryChallenge(a), RecoveryChallenge(b));
    var pre := ValidatePreAuth(s.db, x, ChallengePurpose, s.clock).value;
    var s2 := s.(threads := map[0 := Validated(pre, RecoveryChallenge(a)), 1 := Validated(pre, RecoveryChallenge(b))]);
    var s3 := s2.(threads := s2.threads[0 := ReadingCode(pre, e, CodeDigest(a))]);
    ReadsEnrollment(hmac, s2, 0, pre, a, e);
    ReadsEnrollment(hmac, s3, 1, pre, b, e);
    OneMore(hmac, s, begun, ReadEnrollment(0, Some(e)));
    OneMore(hmac, s, begun + [ReadEnrollment(0, Some(e))], ReadEnrollment(1, Some(e)));
  }

  /** From an idle state with an open session and two unused codes of an active enrollment, two requests
      reach that point: both validate the session, read the enrollment and find their codes. */
  lemma TwoRequestsFind(hmac: Hmac, s: State, x: Digest, e: Id, a: string, b: string)
    requires s.threads == map[] && ValidatePreAuth(s.db, x, ChallengePurpose, s.clock).Some?
    requires var u := s.db.sessions[x].userId;
      && FirstEligible(s.db, u, Active, e) && CodeDigest(a) != CodeDigest(b)
      && UsableCode(s.db, CodeDigest(a), u, e) && UsableCode(s.db, CodeDigest(b), u, e)
    ensures var r := Run(hmac, s, Reading(x, e, a, b) + [FindCode(0)] + [FindCode(1)]);
      r.Some? && BothFound(r.value, x, e, CodeDigest(a), CodeDigest(b))
  {
    TwoRequestsRead(hmac, s, x, e, a, b);
    OneMore(hmac, s, Reading(x, e, a, b), FindCode(0));
    OneMore(hmac, s, Reading(x, e, a, b) + [FindCode(0)], FindCode(1));
  }

  lemma UsesOneMore(hmac: Hmac, s: State, steps: seq<Step>, all: seq<Step>, step: Step, x: Digest, u: nat)
    requires Run(hmac, s, steps).Some? && all == steps + [step] && Run(hmac, s, all).Some?
    requires u == if Succeeds(hmac, Run(hmac, s, steps).value, step, x) then 1 else 0
    ensures UsesOf(hmac, s, all, x) == UsesOf(hmac, s, steps, x) + u
  {
    assert all[..|all| - 1] == steps;
  }

  lemma {:induction false} UsesConcat(hmac: Hmac, s: State, mid: State, a: seq<Step>, b: seq<Step>, x: Digest)
    requires Run(hmac, s, a) == Some(mid) && Run(hmac, mid, b).Some?
    ensures Run(hmac, s, a + b) == Run(hmac, mid, b)
    ensures UsesOf(hmac, s, a + b, x) == UsesOf(hmac, s, a, x) + UsesOf(hmac, mid, b, x)
    decreases |b|
  {
    Runs.RunConcat(hmac, s, a, b);
    if b == [] {
      assert a + b == a;
    } else {
      var front, last := b[..|b| - 1], b[|b| - 1];
      UsesConcat(hmac, s, mid, a, front, x);
      UsesAfter(hmac, s, mid, a, front, b, last, x);
    }
  }

  lemma UsesAfter(hmac: Hmac, s: State, mid: State, a: seq<Step>, front: seq<Step>, b: seq<Step>, last: Step, x: Digest)
    requires b == front + [last] && Run(hmac, mid, front).Some? && Run(hmac, s, a + front) == Run(hmac, mid, front)
    requires Run(hmac, mid, b).Some? && Run(hmac, s, a + b) == Run(hmac, mid, b)
    ensures UsesOf(hmac, s, a + b, x) - UsesOf(hmac, s, a + front, x) == UsesOf(hmac, mid, b, x) - UsesOf(hmac, mid, front, x)
  {
    var u := if Succeeds(hmac, Run(hmac, mid, front).value, last, x) then 1 else 0;
    UsesOneMore(hmac, mid, front, b, last, x, u);
    assert a + b == (a + front) + [last];
    UsesOneMore(hmac, s, a + front, a + b, last, x, u);
  }

  const CHALLENGE := Sha256("c")

  /** After an enrollment and a login, two recovery codes are at hand on an open session. */
  lemma TwoCodesAtHand(s: State, key: seq<byte>, digests: seq<Digest>, now: Instant, a: Digest, b: Digest)
    requires Runs.Enrolled(s, key, digests, now) && a in digests && b in digests
    ensures var db := CreateSession(s.db, CHALLENGE, 0, ChallengePurpose, s.clock);
      && CHALLENGE !in s.db.sessions && ValidatePreAuth(db, CHALLENGE, ChallengePurpose, s.clock).Some?
      && db.sessions[CHALLENGE].userId == 0 && FirstEligible(db, 0, Active, 0)
      && UsableCode(db, a, 0, 0) && UsableCode(db, b, 0, 0)
  {
    NewCodesAre(digests, 0, 0, 0);
    Runs.OnlyOneIsFirst(CreateSession(s.db, CHALLENGE, 0, ChallengePurpose, s.clock), Runs.ActiveRow(key, now));
  }

  /** Everything after the enrollment. */
  lemma LoginAndTwoUses(hmac: Hmac, s: State, key: seq<byte>, digests: seq<Digest>, now: Instant, a: string, b: string)
    returns (steps: seq<Step>)
    requires Runs.Enrolled(s, key, digests, now) && CodeDigest(a) in digests && CodeDigest(b) in digests
    requires CodeDigest(a) != CodeDigest(b)
    ensures Run(hmac, s, steps).Some? && UsesOf(hmac, s, steps, CHALLENGE) >= 2
  {
    TwoCodesAtHand(s, key, digests, now, CodeDigest(a), CodeDigest(b));
    var logIn := [] + [Login(CHALLENGE, 0, ChallengePurpose)];
    OneMore(hmac, s, [], Login(CHALLENGE, 0, ChallengePurpose));
    var s1 := Run(hmac, s, logIn).value;
    var find := Reading(CHALLENGE, 0, a, b) + [FindCode(0)] + [FindCode(1)];
    TwoRequestsFind(hmac, s1, CHALLENGE, 0, a, b);
    var s2 := Run(hmac, s1, find).value;
    var use := [] + [WriteAcceptance(0)] + [WriteAcceptance(1)];
    UsedTwice(hmac, s2, CHALLENGE, 0, CodeDigest(a), CodeDigest(b));
    UsesConcat(hmac, s1, s2, find, use, CHALLENGE);
    UsesConcat(hmac, s, s1, logIn, find + use, CHALLENGE);
    steps := logIn + (find + use);
  }

  /** From empty tables, with any HMAC, key and starting time, a run uses one session twice. */
  lemma SessionIsUsedTwice(hmac: Hmac, key: seq<byte>, now: Instant) returns (s0: State, steps: seq<Step>)
    ensures Initial(s0) && s0.clock == now && Run(hmac, s0, steps).Some? && UsesOf(hmac, s0, steps, CHALLENGE) >= 2
  {
    var digests := Runs.TenDigests();
    Runs.TenAreDifferent();
    s0 := Runs.Nothing(now);
    var enrol := Runs.Enrolls(hmac, key, digests, now);
    var a, b := Runs.TenthCode(0), Runs.TenthCode(1);
    assert digests[0] == CodeDigest(a) && digests[1] == CodeDigest(b);
    var use := LoginAndTwoUses(hmac, Run(hmac, s0, enrol).value, key, digests, now, a, b);
    UsesConcat(hmac, s0, Run(hmac, s0, enrol).value, enrol, use, CHALLENGE);
    steps := enrol + use;
  }
}
