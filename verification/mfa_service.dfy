/** The database calls of PrivilegedMfaService as methods over its tables. Each is the atomic step that
    the protocol interleaves: its new rows are those of the function of MfaStore with the same role, and it
    says what its caller can rely on. */
module MfaService {
  import opened Bytes
  import opened MfaStore
  import opened Text
  import opened Totp
  import opened Wrappers

  class PrivilegedMfaService {
    var accounts: map<Id, Account>
    var sessions: map<Digest, Session>
    var enrollments: map<Id, Enrollment>
    var codes: map<Digest, BackupCode>
    var nextCodeId: Id

    ghost function Rows(): Db
      reads this
    {
      Db(accounts, sessions, enrollments, codes, nextCodeId)
    }

    /** No challenge or enrollment can start on the session any more, at any time. */
    ghost predicate Ended(session: Digest)
      reads this
    {
      forall purpose, t :: ValidatePreAuth(Rows(), session, purpose, t).None?
    }

    /** A lock means at least five failures. */
    ghost predicate Valid()
      reads this
    {
      forall x :: x in sessions && sessions[x].lockedAt.Some? ==> sessions[x].failedAttempts >= MAX_ATTEMPTS
    }

    method FindPreAuth(preAuthToken: string, purpose: Purpose, now: Instant) returns (r: Option<PreAuth>)
      ensures r == ValidatePreAuth(Rows(), Sha256(Trim(preAuthToken)), purpose, now)
      ensures r.Some? ==> r.value.session in sessions && now < sessions[r.value.session].expiresAt
      ensures r.Some? ==> r.value.userId in accounts && accounts[r.value.userId].active && accounts[r.value.userId].privileged
    {
      var digest := Sha256(Trim(preAuthToken));
      if digest !in sessions {
        return None;
      }
      var session := sessions[digest];
      if session.purpose != purpose || session.consumedAt.Some? || session.lockedAt.Some?
         || session.expiresAt <= now || session.failedAttempts >= MAX_ATTEMPTS {
        return None;
      }
      if session.userId !in accounts || !accounts[session.userId].active || !accounts[session.userId].privileged {
        return None;
      }
      return Some(PreAuth(digest, session.userId, session.failedAttempts));
    }

    /** `failedAttempts` was read earlier, so other failures may have been recorded since. Every failure
        counts, the fifth ends the session, locked or not, and a lock is never set before. */
    method RecordFailure(session: Digest, failedAttempts: nat, now: Instant)
      requires Valid() && session in sessions && failedAttempts <= sessions[session].failedAttempts
      modifies this`sessions
      ensures Valid()
      ensures Rows() == RecordFailedAttempt(old(Rows()), session, failedAttempts, now)
      ensures session in sessions && sessions[session].failedAttempts == old(sessions[session]).failedAttempts + 1
      ensures sessions[session].failedAttempts >= MAX_ATTEMPTS ==> Ended(session)
      ensures forall x :: x in old(sessions) && x != session ==> x in sessions && sessions[x] == old(sessions)[x]
    {
      var nextAttempts := failedAttempts + 1;
      var row := sessions[session];
      row := row.(failedAttempts := row.failedAttempts + 1);
      if nextAttempts >= MAX_ATTEMPTS {
        row := row.(lockedAt := Some(now));
      }
      sessions := sessions[session := row];
    }

    /** findFirst with an order: an eligible row of the user that precedes all others. */
    method FindEnrollment(userId: Id, status: EnrollmentStatus) returns (r: Option<Id>)
      ensures r.None? ==> forall f :: !Eligible(Rows(), userId, status, f)
      ensures r.Some? ==> FirstEligible(Rows(), userId, status, r.value)
    {
      r := None;
      var rest := enrollments.Keys;
      while rest != {}
        invariant rest <= enrollments.Keys
        invariant r.None? ==> forall f :: f !in rest ==> !Eligible(Rows(), userId, status, f)
        invariant r.Some? ==> Eligible(Rows(), userId, status, r.value)
        invariant r.Some? ==> forall f :: f !in rest && Eligible(Rows(), userId, status, f) ==>
          Precedes(status, enrollments[r.value], enrollments[f])
        decreases rest
      {
        var f :| f in rest;
        rest := rest - {f};
        var row := enrollments[f];
        if row.userId == userId && row.status == status && row.disabledAt.None?
           && (r.None? || !Precedes(status, enrollments[r.value], row)) {
          r := Some(f);
        }
      }
    }

    method Start(userId: Id, e: Id, key: seq<byte>, now: Instant)
      requires e !in enrollments
      modifies this`enrollments
      ensures Rows() == StartEnrollment(old(Rows()), userId, e, key, now)
    {
      var rest := enrollments.Keys;
      ghost var before := enrollments;
      while rest != {}
        invariant rest <= enrollments.Keys == before.Keys
        invariant forall f :: f in rest ==> enrollments[f] == before[f]
        invariant forall f :: f in before.Keys - rest ==>
          enrollments[f] == if before[f].userId == userId && before[f].status == Pending
                            then before[f].(status := Disabled, disabledAt := Some(now)) else before[f]
        decreases rest
      {
        var f :| f in rest;
        rest := rest - {f};
        var row := enrollments[f];
        if row.userId == userId && row.status == Pending {
          enrollments := enrollments[f := row.(status := Disabled, disabledAt := Some(now))];
        }
      }
      enrollments := enrollments[e := Enrollment(userId, Pending, key, now, None, None, None)];
    }

    /** createMany beside the rows that stay. */
    method CreateCodes(kept: map<Digest, BackupCode>, e: Id, userId: Id, digests: seq<Digest>)
      returns (r: Option<map<Digest, BackupCode>>)
      ensures r == if Clash(kept, digests) then None else Some(NewCodes(digests, e, userId, nextCodeId))
    {
      var created: map<Digest, BackupCode> := map[];
      assert digests[..0] == [];
      for i := 0 to |digests|
        invariant created == NewCodes(digests[..i], e, userId, nextCodeId)
        invariant !Clash(kept, digests[..i])
      {
        OneMoreCode(kept, digests, i, e, userId, nextCodeId);
        if digests[i] in kept || digests[i] in created {
          return None;
        }
        created := created[digests[i] := BackupCode(nextCodeId + i, e, userId, None)];
      }
      assert digests[..|digests|] == digests;
      return Some(created);
    }

    /** Update, deleteMany, createMany and update in one transaction; nothing is written when it fails. */
    method Confirm(session: Digest, e: Id, userId: Id, digests: seq<Digest>, now: Instant) returns (ok: bool)
      requires session in sessions
      modifies this`sessions, this`enrollments, this`codes, this`nextCodeId
      ensures var r := ConfirmEnrollment(old(Rows()), session, e, userId, digests, now);
        ok == r.Some? && Rows() == if ok then r.value else old(Rows())
    {
      if e !in enrollments {
        return false;
      }
      var kept := CodesOfOthers(codes, userId);
      var created := CreateCodes(kept, e, userId, digests);
      if created.None? {
        return false;
      }
      enrollments := enrollments[e := enrollments[e].(status := Active, enabledAt := Some(now), lastVerifiedStep := None)];
      codes := kept + created.value;
      nextCodeId := nextCodeId + |digests|;
      sessions := sessions[session := sessions[session].(consumedAt := Some(now))];
      return true;
    }

    /** Success raises the stored step, so neither this step nor an earlier one can succeed again, on any
        session, and it ends the session. */
    method TryStep(session: Digest, e: Id, matchedStep: nat, now: Instant) returns (consumed: bool)
      requires session in sessions
      modifies this`sessions, this`enrollments
      ensures var r := AcceptStep(old(Rows()), session, e, matchedStep, now);
        consumed == r.Some? && Rows() == if consumed then r.value else old(Rows())
      ensures consumed ==> e in enrollments && enrollments[e].lastVerifiedStep == Some(matchedStep)
      ensures consumed ==> e in old(enrollments) && (old(enrollments)[e].lastVerifiedStep.Some? ==>
        old(enrollments)[e].lastVerifiedStep.value < matchedStep)
      ensures consumed ==> Ended(session) && forall x, n: nat, t :: n <= matchedStep ==> AcceptStep(Rows(), x, e, n, t).None?
    {
      var count := 0;
      if e in enrollments {
        var last := enrollments[e].lastVerifiedStep;
        if last.None? || last.value < matchedStep {
          enrollments := enrollments[e := enrollments[e].(lastVerifiedStep := Some(matchedStep))];
          count := 1;
        }
      }
      if count != 1 {
        return false;
      }
      sessions := sessions[session := sessions[session].(consumedAt := Some(now))];
      return true;
    }

    /** Success spends the code, so it cannot succeed again, on any session, and it ends the session. */
    method TryCode(session: Digest, digest: Digest, codeId: Id, userId: Id, e: Id, now: Instant) returns (consumed: bool)
      requires session in sessions
      modifies this`sessions, this`codes
      ensures var r := AcceptCode(old(Rows()), session, digest, codeId, userId, e, now);
        consumed == r.Some? && Rows() == if consumed then r.value else old(Rows())
      ensures consumed ==> Ended(session) && forall x, c, u, f, t :: AcceptCode(Rows(), x, digest, c, u, f, t).None?
      ensures forall d :: d in old(codes) && d != digest ==> d in codes && codes[d] == old(codes)[d]
    {
      var count := 0;
      if digest in codes {
        var row := codes[digest];
        if row.id == codeId && row.userId == userId && row.enrollmentId == e && row.usedAt.None? {
          codes := codes[digest := row.(usedAt := Some(now))];
          count := 1;
        }
      }
      if count != 1 {
        return false;
      }
      sessions := sessions[session := sessions[session].(consumedAt := Some(now))];
      return true;
    }
  }
}
