/** Runs from empty tables: a privileged user enrolls, which leaves an active enrollment and ten recovery
    codes. */
module MfaRuns {
  import opened Bytes
  import opened MfaProtocol
  import opened MfaStore
  import opened Text
  import opened Totp
  import opened Wrappers

  lemma OneMore(hmac: Hmac, s: State, steps: seq<Step>, step: Step)
    requires Run(hmac, s, steps).Some?
    ensures Run(hmac, s, steps + [step]) == Apply(hmac, Run(hmac, s, steps).value, step)
  {
    assert (steps + [step])[..|steps|] == steps;
  }

  lemma OneStep(hmac: Hmac, s: State, step: Step, next: State) returns (steps: seq<Step>)
    requires Apply(hmac, s, step) == Some(next)
    ensures Run(hmac, s, steps) == Some(next)
  {
    steps := [] + [step];
    OneMore(hmac, s, [], step);
  }

  lemma {:induction false} RunConcat(hmac: Hmac, s: State, a: seq<Step>, b: seq<Step>)
    requires Run(hmac, s, a).Some?
    ensures Run(hmac, s, a + b) == Run(hmac, Run(hmac, s, a).value, b)
    decreases |b|
  {
    if b == [] {
      assert a + b == a;
    } else {
      RunConcat(hmac, s, a, b[..|b| - 1]);
      assert (a + b)[..|a + b| - 1] == a + b[..|b| - 1];
    }
  }

  // ---------- codes ----------

  lemma CodeIsTrimmed(code: string)
    requires IsCode(code)
    ensures Trim(code) == code
  {
    assert code[0] in code && code[|code| - 1] in code;
  }

  lemma CodeFitsItself(hmac: Hmac, key: seq<byte>, n: nat, code: string)
    requires code == CodeAt(hmac, key, n)
    ensures Fits(hmac, key, code)(n)
  {
  }

  /** The code of a step matches at that step, and one step later it is matched as that step. */
  lemma CodeMatches(hmac: Hmac, key: seq<byte>, n: nat, current: nat, code: string)
    requires code == CodeAt(hmac, key, n) && (current == n || current == n + 1)
    ensures var m := MatchedStep(hmac, key, code, current); m.Some? && (current == n + 1 ==> m.value == n)
  {
    CodeIsTrimmed(code);
    CodeFitsItself(hmac, key, n, code);
  }

  // ---------- single steps ----------

  /** Session `x` of user 0 is open for `purpose`. */
  ghost predicate OpenSession(s: State, x: Digest, purpose: Purpose) {
    && 0 in s.db.accounts && s.db.accounts[0] == Account(true, true)
    && x in s.db.sessions && s.clock < s.db.sessions[x].expiresAt
    && s.db.sessions[x] == Session(0, purpose, s.db.sessions[x].expiresAt, None, 0, None)
  }

  lemma Begins(hmac: Hmac, s: State, t: Id, x: Digest, r: Request)
    requires t !in s.threads && OpenSession(s, x, PurposeOf(r))
    ensures Apply(hmac, s, Begin(t, x, r)) == Some(s.(threads := s.threads[t := Validated(PreAuth(x, 0, 0), r)]))
  {
  }

  /** The only enrollment is 0, of user 0. */
  ghost predicate OneEnrollment(s: State, row: Enrollment) {
    s.db.enrollments == map[0 := row] && row.userId == 0 && row.disabledAt.None?
  }

  lemma OnlyOneIsFirst(db: Db, row: Enrollment)
    requires db.enrollments == map[0 := row] && row.userId == 0 && row.disabledAt.None?
    ensures FirstEligible(db, 0, row.status, 0)
  {
  }

  // ---------- enrollment ----------

  const ENROL := Sha256("b")

  function Nothing(now: Instant): State {
    State(Db(map[], map[], map[], map[], 0), now, map[], [])
  }

  function PendingRow(key: seq<byte>, now: Instant): Enrollment {
    Enrollment(0, Pending, key, now, None, None, None)
  }

  function ActiveRow(key: seq<byte>, now: Instant): Enrollment {
    Enrollment(0, Active, key, now, Some(now), None, None)
  }

  /** The state after the login, with some enrollments and requests. */
  function LoggedIn(now: Instant, enrollments: map<Id, Enrollment>, threads: map<Id, Thread>): State {
    State(Db(map[0 := Account(true, true)], map[ENROL := Session(0, EnrollmentPurpose, now + PRE_AUTH_TTL_MS, None, 0, None)],
             enrollments, map[], 0), now, threads, [])
  }

  function Started(key: seq<byte>, now: Instant): State {
    LoggedIn(now, map[0 := PendingRow(key, now)], map[])
  }

  lemma LogsIn(hmac: Hmac, now: Instant) returns (steps: seq<Step>)
    ensures Run(hmac, Nothing(now), steps) == Some(LoggedIn(now, map[], map[]))
  {
    steps := [] + [Administer(0, Account(true, true))] + [Login(ENROL, 0, EnrollmentPurpose)];
    OneMore(hmac, Nothing(now), [], Administer(0, Account(true, true)));
    OneMore(hmac, Nothing(now), [] + [Administer(0, Account(true, true))], Login(ENROL, 0, EnrollmentPurpose));
  }

  lemma Starts(hmac: Hmac, key: seq<byte>, s: State, now: Instant) returns (steps: seq<Step>)
    requires s == LoggedIn(now, map[], map[])
    ensures Run(hmac, s, steps) == Some(Started(key, now))
  {
    steps := [] + [Begin(0, ENROL, Start(key))] + [WriteStart(0, 0)];
    Begins(hmac, s, 0, ENROL, Start(key));
    var s1 := s.(threads := s.threads[0 := Validated(PreAuth(ENROL, 0, 0), Start(key))]);
    OneMore(hmac, s, [], Begin(0, ENROL, Start(key)));
    StartWrites(hmac, s1, key, now);
    OneMore(hmac, s, [] + [Begin(0, ENROL, Start(key))], WriteStart(0, 0));
  }

  lemma StartWrites(hmac: Hmac, s: State, key: seq<byte>, now: Instant)
    requires s == LoggedIn(now, map[], map[0 := Validated(PreAuth(ENROL, 0, 0), Start(key))])
    ensures Apply(hmac, s, WriteStart(0, 0)) == Some(Started(key, now))
  {
    assert StartEnrollment(s.db, 0, 0, key, now).enrollments == map[0 := PendingRow(key, now)];
  }

  /** What an enrollment leaves. */
  ghost predicate Enrolled(s: State, key: seq<byte>, digests: seq<Digest>, now: Instant) {
    && s.clock == now && s.threads == map[] && s.trace == [EnrollmentConfirmed(0, 0)]
    && 0 in s.db.accounts && s.db.accounts[0] == Account(true, true) && s.db.sessions.Keys == {ENROL}
    && OneEnrollment(s, ActiveRow(key, now)) && s.db.codes == NewCodes(digests, 0, 0, 0)
  }

  function AtConfirming(key: seq<byte>, now: Instant, code: string): State {
    Started(key, now).(threads := map[0 := Confirming(PreAuth(ENROL, 0, 0), 0, key, code)])
  }

  function AtActivating(key: seq<byte>, now: Instant): State {
    Started(key, now).(threads := map[0 := Activating(PreAuth(ENROL, 0, 0), 0)])
  }

  /** There is a code that matches at any time. */
  lemma SomeCodeMatches(hmac: Hmac, key: seq<byte>, now: Instant) returns (code: string, steps: seq<Step>)
    ensures Run(hmac, AtConfirming(key, now, code), steps) == Some(AtActivating(key, now))
  {
    code := CodeAt(hmac, key, StepAt(now));
    CodeMatches(hmac, key, StepAt(now), StepAt(now), code);
    steps := MatchActivates(hmac, AtConfirming(key, now, code), AtActivating(key, now), PreAuth(ENROL, 0, 0), key, code);
  }

  lemma Confirms(hmac: Hmac, key: seq<byte>, digests: seq<Digest>, now: Instant, code: string, matching: seq<Step>)
    returns (steps: seq<Step>)
    requires |digests| == BACKUP_CODE_COUNT && !Clash(map[], digests)
    requires Run(hmac, AtConfirming(key, now, code), matching) == Some(AtActivating(key, now))
    ensures var r := Run(hmac, Started(key, now), steps); r.Some? && Enrolled(r.value, key, digests, now)
  {
    var s := Started(key, now);
    var reading := ReadsPending(hmac, key, s, AtConfirming(key, now, code), now, code);
    RunConcat(hmac, s, reading, matching);
    ConfirmationWrites(hmac, AtActivating(key, now), key, digests, now);
    OneMore(hmac, s, reading + matching, WriteConfirmation(0, digests));
    steps := reading + matching + [WriteConfirmation(0, digests)];
  }

  lemma ReadsPending(hmac: Hmac, key: seq<byte>, s: State, next: State, now: Instant, code: string) returns (steps: seq<Step>)
    requires s == Started(key, now) && next == s.(threads := map[0 := Confirming(PreAuth(ENROL, 0, 0), 0, key, code)])
    ensures Run(hmac, s, steps) == Some(next)
  {
    steps := [] + [Begin(0, ENROL, Confirm(code))] + [ReadEnrollment(0, Some(0))];
    Begins(hmac, s, 0, ENROL, Confirm(code));
    var s1 := s.(threads := s.threads[0 := Validated(PreAuth(ENROL, 0, 0), Confirm(code))]);
    OneMore(hmac, s, [], Begin(0, ENROL, Confirm(code)));
    PendingIsRead(hmac, s1, next, key, code);
    OneMore(hmac, s, [] + [Begin(0, ENROL, Confirm(code))], ReadEnrollment(0, Some(0)));
  }

  lemma PendingIsRead(hmac: Hmac, s: State, next: State, key: seq<byte>, code: string)
    requires s.db.enrollments == map[0 := PendingRow(key, s.clock)]
    requires s.threads == map[0 := Validated(PreAuth(ENROL, 0, 0), Confirm(code))]
    requires next == s.(threads := map[0 := Confirming(PreAuth(ENROL, 0, 0), 0, key, code)])
    ensures Apply(hmac, s, ReadEnrollment(0, Some(0))) == Some(next)
  {
    OnlyOneIsFirst(s.db, PendingRow(key, s.clock));
    assert s.threads[0 := next.threads[0]] == next.threads;
  }

  lemma MatchActivates(hmac: Hmac, s: State, next: State, pre: PreAuth, key: seq<byte>, code: string) returns (steps: seq<Step>)
    requires s.threads == map[0 := Confirming(pre, 0, key, code)] && next == s.(threads := map[0 := Activating(pre, 0)])
    requires MatchedStep(hmac, key, code, StepAt(s.clock)).Some?
    ensures Run(hmac, s, steps) == Some(next)
  {
    MatchConfirms(hmac, s, 0, pre, 0, key, code, MatchedStep(hmac, key, code, StepAt(s.clock)));
    assert s.threads[0 := next.threads[0]] == next.threads;
    steps := OneStep(hmac, s, Match(0), next);
  }

  lemma MatchConfirms(hmac: Hmac, s: State, t: Id, pre: PreAuth, e: Id, key: seq<byte>, code: string, m: Option<nat>)
    requires t in s.threads && s.threads[t] == Confirming(pre, e, key, code) && m == MatchedStep(hmac, key, code, StepAt(s.clock))
    ensures Apply(hmac, s, Match(t)) ==
      Some(s.(threads := s.threads[t := if m.None? then Failing(pre) else Activating(pre, e)]))
  {
  }

  lemma ConfirmationWrites(hmac: Hmac, s: State, key: seq<byte>, digests: seq<Digest>, now: Instant)
    requires s == LoggedIn(now, map[0 := PendingRow(key, now)], map[0 := Activating(PreAuth(ENROL, 0, 0), 0)])
    requires |digests| == BACKUP_CODE_COUNT && !Clash(map[], digests)
    ensures var r := Apply(hmac, s, WriteConfirmation(0, digests)); r.Some? && Enrolled(r.value, key, digests, now)
  {
    assert CodesOfOthers(s.db.codes, 0) == map[];
  }

  /** With any HMAC, key and ten different recovery codes, the enrollment goes through at any time. */
  lemma Enrolls(hmac: Hmac, key: seq<byte>, digests: seq<Digest>, now: Instant) returns (steps: seq<Step>)
    requires |digests| == BACKUP_CODE_COUNT && !Clash(map[], digests)
    ensures Initial(Nothing(now))
    ensures var r := Run(hmac, Nothing(now), steps); r.Some? && Enrolled(r.value, key, digests, now)
  {
    var code, matching := SomeCodeMatches(hmac, key, now);
    var logIn := LogsIn(hmac, now);
    var start := Starts(hmac, key, LoggedIn(now, map[], map[]), now);
    RunConcat(hmac, Nothing(now), logIn, start);
    var confirm := Confirms(hmac, key, digests, now, code, matching);
    RunConcat(hmac, Nothing(now), logIn + start, confirm);
    steps := logIn + start + confirm;
  }

  // ---------- ten recovery codes ----------

  const DIGITS := "0123456789"

  /** A recovery code of twelve characters. */
  function TenthCode(i: nat): string
    requires i < 10
  {
    "AAAAAAAAAAA" + [DIGITS[i]]
  }

  function TenDigests(): (r: seq<Digest>)
    ensures |r| == BACKUP_CODE_COUNT && forall i :: 0 <= i < 10 ==> r[i] == CodeDigest(TenthCode(i))
  {
    seq(10, i requires 0 <= i < 10 => CodeDigest(TenthCode(i)))
  }

  lemma TenAreDifferent()
    ensures !Clash(map[], TenDigests())
  {
    forall i, j | 0 <= i < j < 10 ensures CodeDigest(TenthCode(i)) != CodeDigest(TenthCode(j)) {
      LastCharacterCounts("AAAAAAAAAAA", DIGITS[i], DIGITS[j]);
    }
  }

  lemma LastCharacterCounts(a: string, c: char, d: char)
    requires '0' <= c <= '9' && '0' <= d <= '9' && c != d
    ensures CodeDigest(a + [c]) != CodeDigest(a + [d])
  {
    NormalizedAppend(a, [c]);
    NormalizedAppend(a, [d]);
    OneDigit(c);
    OneDigit(d);
    assert (Normalized(a) + [c])[|Normalized(a)|] != (Normalized(a) + [d])[|Normalized(a)|];
  }

  lemma OneDigit(c: char)
    requires '0' <= c <= '9'
    ensures Normalized([c]) == [c]
  {
    assert [c][1..] == "";
  }
}
