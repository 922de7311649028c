/** The rows that privileged multi-factor authentication keeps, and the database calls it makes on
    them. Each function is one Prisma call or one `$transaction`, hence one atomic step. */
module MfaStore {
  import opened Bytes
  import opened Text
  import opened Totp
  import opened Wrappers

  type Id = nat

  /** SHA-256 as a free constructor: equal digests come from equal texts. */
  datatype Digest = Sha256(text: string)

  datatype Purpose = EnrollmentPurpose | ChallengePurpose
  datatype EnrollmentStatus = Pending | Active | Disabled

  datatype Account = Account(active: bool, privileged: bool)

  datatype Session = Session(userId: Id, purpose: Purpose, expiresAt: nat, consumedAt: Option<nat>,
                             failedAttempts: nat, lockedAt: Option<nat>)

  datatype Enrollment = Enrollment(userId: Id, status: EnrollmentStatus, key: seq<byte>, createdAt: nat,
                                   enabledAt: Option<nat>, disabledAt: Option<nat>, lastVerifiedStep: Option<nat>)

  datatype BackupCode = BackupCode(id: Id, enrollmentId: Id, userId: Id, usedAt: Option<nat>)

  /** Sessions and backup codes are keyed by their unique digest. `nextCodeId` is the next row id. */
  datatype Db = Db(accounts: map<Id, Account>, sessions: map<Digest, Session>, enrollments: map<Id, Enrollment>,
                   codes: map<Digest, BackupCode>, nextCodeId: Id)

  /** What validatePreAuth hands to the rest of the request. */
  datatype PreAuth = PreAuth(session: Digest, userId: Id, failedAttempts: nat)

  const MAX_ATTEMPTS := 5
  const BACKUP_CODE_COUNT := 10
  const PRE_AUTH_TTL_MS := 600_000

  /** The backup codes of a user are at most ten rows, whatever digests they have. */
  function CodesOf(db: Db, userId: Id): set<Digest> {
    set d | d in db.codes && db.codes[d].userId == userId
  }

  function ValidatePreAuth(db: Db, token: Digest, purpose: Purpose, now: nat): Option<PreAuth> {
    if token !in db.sessions then None
    else
      var s := db.sessions[token];
      if s.purpose != purpose || s.consumedAt.Some? || s.lockedAt.Some? || s.expiresAt <= now
         || s.failedAttempts >= MAX_ATTEMPTS || s.userId !in db.accounts
         || !db.accounts[s.userId].active || !db.accounts[s.userId].privileged
      then None
      else Some(PreAuth(token, s.userId, s.failedAttempts))
  }

  /** `e` is a row that activeEnrollment (status Active, latest enabledAt) or pendingEnrollment (status
      Pending, latest createdAt) may return. */
  ghost predicate FirstEligible(db: Db, userId: Id, status: EnrollmentStatus, e: Id) {
    && Eligible(db, userId, status, e)
    && forall f :: Eligible(db, userId, status, f) ==> Precedes(status, db.enrollments[e], db.enrollments[f])
  }

  predicate Precedes(status: EnrollmentStatus, a: Enrollment, b: Enrollment) {
    if status == Active then Newer(a.enabledAt, b.enabledAt) else b.createdAt <= a.createdAt
  }

  predicate Eligible(db: Db, userId: Id, status: EnrollmentStatus, e: Id) {
    e in db.enrollments && var row := db.enrollments[e];
    row.userId == userId && row.status == status && row.disabledAt.None?
  }

  /** Descending order; a missing time sorts first. */
  predicate Newer(a: Option<nat>, b: Option<nat>) {
    a.None? || (b.Some? && b.value <= a.value)
  }

  function ConsumeSession(db: Db, token: Digest, now: nat): Db {
    if token in db.sessions then db.(sessions := db.sessions[token := db.sessions[token].(consumedAt := Some(now))])
    else db
  }

  /** The increment happens in the database; the lock is decided from the value read earlier. */
  function RecordFailedAttempt(db: Db, token: Digest, seen: nat, now: nat): Db {
    if token !in db.sessions then db
    else
      var s := db.sessions[token];
      var lockedAt := if seen + 1 >= MAX_ATTEMPTS then Some(now) else s.lockedAt;
      db.(sessions := db.sessions[token := s.(failedAttempts := s.failedAttempts + 1, lockedAt := lockedAt)])
  }

  function CreateSession(db: Db, token: Digest, userId: Id, purpose: Purpose, now: nat): Db {
    db.(sessions := db.sessions[token := Session(userId, purpose, now + PRE_AUTH_TTL_MS, None, 0, None)])
  }

  /** startEnrollment: pending rows of the user are disabled, a new pending row is created. */
  function StartEnrollment(db: Db, userId: Id, e: Id, key: seq<byte>, now: nat): Db {
    var disabled := map f | f in db.enrollments ::
      var row := db.enrollments[f];
      if row.userId == userId && row.status == Pending then row.(status := Disabled, disabledAt := Some(now)) else row;
    db.(enrollments := disabled[e := Enrollment(userId, Pending, key, now, None, None, None)])
  }

  /** Rows for the new codes, numbered from `next`. */
  function NewCodes(digests: seq<Digest>, enrollmentId: Id, userId: Id, next: Id): map<Digest, BackupCode> {
    if digests == [] then map[]
    else
      var n := |digests| - 1;
      NewCodes(digests[..n], enrollmentId, userId, next)[digests[n] := BackupCode(next + n, enrollmentId, userId, None)]
  }

  lemma {:induction false} NewCodesAre(digests: seq<Digest>, e: Id, u: Id, next: Id)
    ensures var m := NewCodes(digests, e, u, next);
      && (forall d :: d in m <==> d in digests)
      && (forall d :: d in m ==> m[d].userId == u && m[d].enrollmentId == e && m[d].usedAt == None)
      && (forall d :: d in m ==> next <= m[d].id < next + |digests| && digests[m[d].id - next] == d)
  {
    if digests != [] {
      var n := |digests| - 1;
      NewCodesAre(digests[..n], e, u, next);
      assert digests == digests[..n] + [digests[n]];
    }
  }

  lemma NewCodesOfPrefix(digests: seq<Digest>, i: nat, e: Id, u: Id, next: Id)
    requires i < |digests|
    ensures NewCodes(digests[..i + 1], e, u, next) == NewCodes(digests[..i], e, u, next)[digests[i] := BackupCode(next + i, e, u, None)]
  {
    assert digests[..i + 1][..i] == digests[..i];
  }

  /** What `deleteMany` of a user's backup codes leaves. */
  function CodesOfOthers(codes: map<Digest, BackupCode>, userId: Id): map<Digest, BackupCode> {
    map d | d in codes && codes[d].userId != userId :: codes[d]
  }

  /** Inserting the digests would violate their uniqueness. */
  predicate Clash(kept: map<Digest, BackupCode>, digests: seq<Digest>) {
    || (exists i :: 0 <= i < |digests| && digests[i] in kept)
    || (exists i, j :: 0 <= i < j < |digests| && digests[i] == digests[j])
  }

  lemma ClashOfPrefix(kept: map<Digest, BackupCode>, digests: seq<Digest>, i: nat)
    requires i < |digests|
    ensures Clash(kept, digests[..i + 1]) <==>
      Clash(kept, digests[..i]) || digests[i] in kept || digests[i] in digests[..i]
    ensures Clash(kept, digests[..i + 1]) ==> Clash(kept, digests)
  {
    var a, b := digests[..i], digests[..i + 1];
    assert b == a + [digests[i]];
    if digests[i] in kept { assert b[i] in kept; }
    if digests[i] in a {
      var j :| 0 <= j < i && a[j] == digests[i];
      assert b[j] == b[i];
    }
    if Clash(kept, a) {
      if k :| 0 <= k < i && a[k] in kept {
        assert b[k] in kept;
      } else {
        var j, k :| 0 <= j < k < i && a[j] == a[k];
        assert b[j] == b[k];
      }
    }
    if Clash(kept, b) {
      if k :| 0 <= k <= i && b[k] in kept {
        assert digests[k] in kept;
      } else {
        var j, k :| 0 <= j < k <= i && b[j] == b[k];
        assert digests[j] == digests[k];
      }
    }
  }

  /** One more row beside those of the digests so far. */
  lemma OneMoreCode(kept: map<Digest, BackupCode>, digests: seq<Digest>, i: nat, e: Id, u: Id, next: Id)
    requires i < |digests| && !Clash(kept, digests[..i])
    ensures var created := NewCodes(digests[..i], e, u, next); var d := digests[i];
      if d in kept || d in created then Clash(kept, digests)
      else !Clash(kept, digests[..i + 1]) && NewCodes(digests[..i + 1], e, u, next) == created[d := BackupCode(next + i, e, u, None)]
  {
    ClashOfPrefix(kept, digests, i);
    NewCodesOfPrefix(digests, i, e, u, next);
    NewCodesAre(digests[..i], e, u, next);
  }

  /** confirmEnrollment's transaction. It fails as a whole when a new digest is taken. */
  function ConfirmEnrollment(db: Db, token: Digest, e: Id, userId: Id, digests: seq<Digest>, now: nat): Option<Db> {
    var kept := CodesOfOthers(db.codes, userId);
    if e !in db.enrollments || Clash(kept, digests) then None
    else
      var row := db.enrollments[e].(status := Active, enabledAt := Some(now), lastVerifiedStep := None);
      Some(ConsumeSession(
        db.(enrollments := db.enrollments[e := row],
            codes := kept + NewCodes(digests, e, userId, db.nextCodeId),
            nextCodeId := db.nextCodeId + |digests|),
        token, now))
  }

  /** The conditional update of completeTotpChallenge; None when no row was updated. */
  function AcceptStep(db: Db, token: Digest, e: Id, step: nat, now: nat): Option<Db> {
    if e !in db.enrollments then None
    else
      var row := db.enrollments[e];
      if row.lastVerifiedStep.Some? && row.lastVerifiedStep.value >= step then None
      else Some(ConsumeSession(db.(enrollments := db.enrollments[e := row.(lastVerifiedStep := Some(step))]), token, now))
  }

  /** The lookup of completeRecoveryCodeChallenge. */
  predicate UsableCode(db: Db, digest: Digest, userId: Id, e: Id) {
    digest in db.codes && var row := db.codes[digest];
    row.userId == userId && row.enrollmentId == e && row.usedAt.None?
  }

  /** The conditional update of completeRecoveryCodeChallenge; None when no row was updated. */
  function AcceptCode(db: Db, token: Digest, digest: Digest, codeId: Id, userId: Id, e: Id, now: nat): Option<Db> {
    if UsableCode(db, digest, userId, e) && db.codes[digest].id == codeId then
      Some(ConsumeSession(db.(codes := db.codes[digest := db.codes[digest].(usedAt := Some(now))]), token, now))
    else None
  }

  // ---------- recovery code texts ----------

  predicate IsAlphanumeric(c: char) {
    'A' <= c <= 'Z' || 'a' <= c <= 'z' || '0' <= c <= '9'
  }

  /** `code.replace(/[^A-Z0-9]/gi, '').toUpperCase()` */
  function Normalized(code: string): (r: string)
    ensures forall c :: c in r ==> IsAlphanumeric(c) && UpperChar(c) == c
  {
    if code == "" then ""
    else if IsAlphanumeric(code[0]) then [UpperChar(code[0])] + Normalized(code[1..])
    else Normalized(code[1..])
  }

  function CodeDigest(code: string): Digest {
    Sha256(Normalized(code))
  }

  /** `replace(/(.{4})(.{4})(.{4})/, '$1-$2-$3')` on the first twelve characters. */
  function Formatted(code: string): string {
    if |code| < 12 then code else code[..4] + "-" + code[4..8] + "-" + code[8..]
  }

  lemma {:induction false} NormalizedAppend(a: string, b: string)
    ensures Normalized(a + b) == Normalized(a) + Normalized(b)
  {
    if a == "" {
      assert a + b == b;
    } else {
      NormalizedAppend(a[1..], b);
      assert (a + b)[1..] == a[1..] + b && (a + b)[0] == a[0];
    }
  }

  lemma DashIsIgnored(a: string, d: string, b: string)
    requires Normalized(d) == ""
    ensures Normalized(a + d + b) == Normalized(a) + Normalized(b)
  {
    NormalizedAppend(a + d, b);
    NormalizedAppend(a, d);
  }

  lemma TwoDashesAreIgnored(a: string, b: string, c: string, d: string)
    requires Normalized(d) == ""
    ensures Normalized(a + d + b + d + c) == Normalized(a + b + c)
  {
    DashIsIgnored(a + d + b, d, c);
    DashIsIgnored(a, d, b);
    NormalizedAppend(a + b, c);
    NormalizedAppend(a, b);
  }

  /** Dashes inserted for display and letter case do not change which code is meant. */
  lemma FormattingKeepsCode(code: string)
    ensures CodeDigest(Formatted(code)) == CodeDigest(code)
    ensures CodeDigest(Normalized(code)) == CodeDigest(code)
  {
    NormalizedIsIdempotent(code);
    if |code| >= 12 {
      TwoDashesAreIgnored(code[..4], code[4..8], code[8..], "-");
      assert code == code[..4] + code[4..8] + code[8..];
    }
  }

  lemma {:induction false} NormalizedIsIdempotent(code: string)
    ensures Normalized(Normalized(code)) == Normalized(code)
  {
    if code != "" {
      NormalizedIsIdempotent(code[1..]);
      if IsAlphanumeric(code[0]) {
        var n := Normalized(code);
        assert n[0] == UpperChar(code[0]) && n[1..] == Normalized(code[1..]);
      }
    }
  }

  /** Codes that differ in letter case only are the same code. */
  lemma {:induction false} CaseIsIgnored(a: string, b: string)
    requires Upper(a) == Upper(b)
    ensures CodeDigest(a) == CodeDigest(b)
  {
    if a != "" {
      assert |a| == |Upper(a)| == |Upper(b)| == |b|;
      assert Upper(a)[0] == UpperChar(a[0]) && Upper(b)[0] == UpperChar(b[0]);
      assert Upper(a[1..]) == Upper(a)[1..] && Upper(b[1..]) == Upper(b)[1..];
      CaseIsIgnored(a[1..], b[1..]);
    }
  }

  predicate LettersAndDigits(code: string) {
    forall c :: c in code ==> 'A' <= c <= 'Z' || 'a' <= c <= 'z' || '0' <= c <= '9'
  }

  lemma {:induction false} NormalizedIsUpper(code: string)
    requires LettersAndDigits(code)
    ensures Normalized(code) == Upper(code)
  {
    if code != "" {
      assert code[0] in code && forall c :: c in code[1..] ==> c in code;
      NormalizedIsUpper(code[1..]);
      assert Upper(code) == [UpperChar(code[0])] + Upper(code[1..]);
    }
  }

  /** Codes of letters and digits are the same code exactly when they differ in letter case only. */
  lemma SameCodeIff(a: string, b: string)
    requires LettersAndDigits(a) && LettersAndDigits(b)
    ensures CodeDigest(a) == CodeDigest(b) <==> Upper(a) == Upper(b)
  {
    NormalizedIsUpper(a);
    NormalizedIsUpper(b);
  }

  /** Any other character may stand anywhere in a code. */
  lemma SeparatorsAreIgnored(a: string, c: char, b: string)
    requires !LettersAndDigits([c])
    ensures CodeDigest(a + [c] + b) == CodeDigest(a + b)
  {
    assert [c][1..] == "";
    DashIsIgnored(a, [c], b);
    NormalizedAppend(a, b);
  }
}
