/** Privileged multi-factor authentication as a protocol: any number of requests, each a thread that
    keeps what it has read, interleave between their database calls. */
module MfaProtocol {
  import opened Bytes
  import opened MfaStore
  import opened Totp
  import opened Wrappers

  /** Where a request stands and what it remembers. */
  datatype Thread =
    | Validated(pre: PreAuth, request: Request)
    | Matching(pre: PreAuth, e: Id, lastSeen: Option<nat>, key: seq<byte>, code: string)
    | AcceptingStep(pre: PreAuth, e: Id, step: nat, clockStep: nat)
    | ReadingCode(pre: PreAuth, e: Id, digest: Digest)
    | AcceptingCode(pre: PreAuth, e: Id, digest: Digest, codeId: Id)
    | Confirming(pre: PreAuth, e: Id, key: seq<byte>, code: string)
    | Activating(pre: PreAuth, e: Id)
    | Failing(pre: PreAuth)

  datatype Request = Start(key: seq<byte>) | Confirm(code: string) | TotpChallenge(code: string) | RecoveryChallenge(code: string)

  datatype Event =
    | StepAccepted(e: Id, step: nat, clockStep: nat)
    | CodeAccepted(codeId: Id, userId: Id)
    | EnrollmentConfirmed(e: Id, userId: Id)
    | FailureRecorded(session: Digest)

  datatype State = State(db: Db, clock: Instant, threads: map<Id, Thread>, trace: seq<Event>)

  datatype Step =
    | Tick(to: Instant)
    | Administer(userId: Id, account: Account)
    | Login(token: Digest, userId: Id, purpose: Purpose)
    | Begin(t: Id, token: Digest, request: Request)
    | ReadEnrollment(t: Id, found: Option<Id>)
    | Match(t: Id)
    | FindCode(t: Id)
    | WriteStart(t: Id, e: Id)
    | WriteConfirmation(t: Id, digests: seq<Digest>)
    | WriteAcceptance(t: Id)
    | WriteFailure(t: Id)

  function PurposeOf(r: Request): Purpose {
    if r.Start? || r.Confirm? then EnrollmentPurpose else ChallengePurpose
  }

  function Without(m: map<Id, Thread>, t: Id): map<Id, Thread> {
    m - {t}
  }

  /** One atomic step; None when it cannot happen in `s`. */
  ghost function Apply(hmac: Hmac, s: State, step: Step): Option<State> {
    match step
    case Tick(to) => if s.clock <= to then Some(s.(clock := to)) else None
    case Administer(u, a) => Some(s.(db := s.db.(accounts := s.db.accounts[u := a])))
    case Login(token, u, p) =>
      if token in s.db.sessions then None else Some(s.(db := CreateSession(s.db, token, u, p, s.clock)))
    case Begin(t, token, r) =>
      var pre := ValidatePreAuth(s.db, token, PurposeOf(r), s.clock);
      if t in s.threads || pre.None? then None
      else Some(s.(threads := s.threads[t := Validated(pre.value, r)]))
    case _ =>
      if step.t !in s.threads then None else Advance(hmac, s, step, s.threads[step.t])
  }

  /** A step of a running request. */
  ghost function Advance(hmac: Hmac, s: State, step: Step, th: Thread): Option<State>
    requires !(step.Tick? || step.Administer? || step.Login? || step.Begin?)
  {
    var t := step.t;
    match (step, th)
    case (ReadEnrollment(_, e), Validated(pre, r)) =>
      var next := AfterRead(s.db, pre, r, e);
      if next.None? then None else Some(s.(threads := s.threads[t := next.value]))
    case (Match(_), Matching(pre, e, lastSeen, key, code)) =>
      var m := MatchedStep(hmac, key, code, StepAt(s.clock));
      Some(s.(threads := s.threads[t :=
        if m.None? || (lastSeen.Some? && m.value <= lastSeen.value) then Failing(pre)
        else AcceptingStep(pre, e, m.value, StepAt(s.clock))]))
    case (Match(_), Confirming(pre, e, key, code)) =>
      var m := MatchedStep(hmac, key, code, StepAt(s.clock));
      Some(s.(threads := s.threads[t := if m.None? then Failing(pre) else Activating(pre, e)]))
    case (FindCode(_), ReadingCode(pre, e, digest)) =>
      Some(s.(threads := s.threads[t :=
        if UsableCode(s.db, digest, pre.userId, e) then AcceptingCode(pre, e, digest, s.db.codes[digest].id)
        else Failing(pre)]))
    case (WriteStart(_, e), Validated(pre, Start(key))) =>
      if e in s.db.enrollments then None
      else Some(s.(db := StartEnrollment(s.db, pre.userId, e, key, s.clock), threads := Without(s.threads, t)))
    case (WriteConfirmation(_, digests), Activating(pre, e)) =>
      var db := ConfirmEnrollment(s.db, pre.session, e, pre.userId, digests, s.clock);
      if |digests| != BACKUP_CODE_COUNT then None
      else if db.None? then Some(s.(threads := Without(s.threads, t)))
      else Some(s.(db := db.value, threads := Without(s.threads, t),
                   trace := s.trace + [EnrollmentConfirmed(e, pre.userId)]))
    case (WriteAcceptance(_), AcceptingStep(pre, e, n, c)) =>
      var db := AcceptStep(s.db, pre.session, e, n, s.clock);
      if db.None? then Some(s.(threads := s.threads[t := Failing(pre)]))
      else Some(s.(db := db.value, threads := Without(s.threads, t), trace := s.trace + [StepAccepted(e, n, c)]))
    case (WriteAcceptance(_), AcceptingCode(pre, e, digest, codeId)) =>
      var db := AcceptCode(s.db, pre.session, digest, codeId, pre.userId, e, s.clock);
      if db.None? then Some(s.(threads := s.threads[t := Failing(pre)]))
      else Some(s.(db := db.value, threads := Without(s.threads, t), trace := s.trace + [CodeAccepted(codeId, pre.userId)]))
    case (WriteFailure(_), Failing(pre)) =>
      Some(s.(db := RecordFailedAttempt(s.db, pre.session, pre.failedAttempts, s.clock),
              threads := Without(s.threads, t), trace := s.trace + [FailureRecorded(pre.session)]))
    case _ => None
  }

  /** The second read of confirmEnrollment and completeChallenge: `e` is the row found, if any. */
  ghost function AfterRead(db: Db, pre: PreAuth, r: Request, e: Option<Id>): Option<Thread> {
    match (r, e)
    case (Start(_), _) => None
    case (Confirm(code), Some(e)) =>
      if FirstEligible(db, pre.userId, Pending, e) then Some(Confirming(pre, e, db.enrollments[e].key, code)) else None
    case (Confirm(_), None) =>
      if forall f :: !Eligible(db, pre.userId, Pending, f) then Some(Failing(pre)) else None
    case (TotpChallenge(code), Some(e)) =>
      if !FirstEligible(db, pre.userId, Active, e) then None
      else Some(Matching(pre, e, db.enrollments[e].lastVerifiedStep, db.enrollments[e].key, code))
    case (RecoveryChallenge(code), Some(e)) =>
      if !FirstEligible(db, pre.userId, Active, e) then None else Some(ReadingCode(pre, e, CodeDigest(code)))
    case (_, None) =>
      if forall f :: !Eligible(db, pre.userId, Active, f) then Some(Failing(pre)) else None
  }

  /** A run: all steps in order, or None when one of them cannot happen. */
  ghost function Run(hmac: Hmac, s: State, steps: seq<Step>): Option<State>
    decreases |steps|
  {
    if steps == [] then Some(s)
    else
      var r := Run(hmac, s, steps[..|steps| - 1]);
      if r.None? then None else Apply(hmac, r.value, steps[|steps| - 1])
  }

  /** No rows and no requests. */
  ghost predicate Initial(s: State) {
    s.db == Db(map[], map[], map[], map[], 0) && s.threads == map[] && s.trace == []
  }

  ghost predicate Reachable(hmac: Hmac, s: State) {
    exists s0, steps :: Initial(s0) && Run(hmac, s0, steps) == Some(s)
  }
}
