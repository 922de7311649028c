/** Recovery codes, over every interleaving: each is accepted at most once, and at most ten between
    two confirmations. */
module MfaRecovery {
  import opened MfaProtocol
  import opened MfaSafety
  import opened MfaStore
  import opened Totp
  import opened Wrappers

  /** Row ids are below the counter and name one row. */
  ghost predicate IdsOk(db: Db) {
    && (forall d :: d in db.codes ==> db.codes[d].id < db.nextCodeId)
    && (forall d, f :: d in db.codes && f in db.codes && db.codes[d].id == db.codes[f].id ==> d == f)
  }

  /** An accepted code was accepted once, and its row, if it still exists, is marked. */
  ghost predicate UsesOk(s: State, c: Id) {
    && Uses(s.trace, c) <= 1
    && (Uses(s.trace, c) > 0 ==> c < s.db.nextCodeId)
    && (Uses(s.trace, c) > 0 ==> forall d :: d in s.db.codes && s.db.codes[d].id == c ==> s.db.codes[d].usedAt.Some?)
  }

  /** `c` is a marked row of user `u`. */
  ghost predicate MarkedRow(db: Db, u: Id, c: Id) {
    exists d :: d in db.codes && db.codes[d].userId == u && db.codes[d].id == c && db.codes[d].usedAt.Some?
  }

  ghost predicate NoDuplicates(cs: seq<Id>) {
    forall i, j :: 0 <= i < j < |cs| ==> cs[i] != cs[j]
  }

  /** The codes a user spent since the last confirmation are distinct marked rows of theirs, of at most ten. */
  ghost predicate SpentOk(s: State, u: Id) {
    var cs := CodesSinceConfirmation(s.trace, u);
    && |CodesOf(s.db, u)| <= BACKUP_CODE_COUNT
    && NoDuplicates(cs)
    && (forall i :: 0 <= i < |cs| ==> MarkedRow(s.db, u, cs[i]))
  }

  ghost predicate CodeInv(s: State) {
    IdsOk(s.db) && (forall c :: UsesOk(s, c)) && (forall u :: SpentOk(s, u))
  }

  // ---------- a code is accepted ----------

  lemma AcceptanceKeepsIds(s: State, s': State, d: Digest, u: Id)
    requires IdsOk(s.db) && AcceptsCode(s, s', d, u)
    ensures IdsOk(s'.db)
  {
  }

  lemma AcceptanceKeepsUses(s: State, s': State, d: Digest, u: Id, c: Id)
    requires CodeInv(s) && AcceptsCode(s, s', d, u)
    ensures UsesOk(s', c)
  {
    var row := s.db.codes[d];
    TraceAppend(s.trace, CodeAccepted(row.id, u));
    assert UsesOk(s, c);
  }

  lemma AcceptanceKeepsSpent(s: State, s': State, d: Digest, u: Id, v: Id)
    requires CodeInv(s) && AcceptsCode(s, s', d, u)
    ensures SpentOk(s', v)
  {
    var row := s.db.codes[d];
    TraceAppend(s.trace, CodeAccepted(row.id, u));
    assert SpentOk(s, v);
    assert CodesOf(s'.db, v) == CodesOf(s.db, v);
    var cs, cs' := CodesSinceConfirmation(s.trace, v), CodesSinceConfirmation(s'.trace, v);
    forall i | 0 <= i < |cs| ensures MarkedRow(s'.db, v, cs[i]) && (v == u ==> cs[i] != row.id) {
      assert MarkedRow(s.db, v, cs[i]);
      var f :| f in s.db.codes && s.db.codes[f].userId == v && s.db.codes[f].id == cs[i] && s.db.codes[f].usedAt.Some?;
      assert f != d && f in s'.db.codes && s'.db.codes[f] == s.db.codes[f];
    }
    assert d in s'.db.codes && s'.db.codes[d].usedAt.Some?;
    assert MarkedRow(s'.db, u, row.id);
  }

  // ---------- a confirmation replaces the codes ----------

  /** A row after a confirmation is an old row of another user or one of the new rows. */
  lemma RowAfterConfirmation(s: State, s': State, e: Id, u: Id, ds: seq<Digest>, d: Digest)
    requires IdsOk(s.db) && Confirms(s, s', e, u, ds) && d in s'.db.codes
    ensures var c, next := s'.db.codes[d].id, s.db.nextCodeId;
      if d in ds then next <= c < next + |ds| && ds[c - next] == d
      else d in s.db.codes && s'.db.codes[d] == s.db.codes[d] && c < next
  {
    NewCodesAre(ds, e, u, s.db.nextCodeId);
  }

  lemma ConfirmationKeepsIds(s: State, s': State, e: Id, u: Id, ds: seq<Digest>)
    requires IdsOk(s.db) && Confirms(s, s', e, u, ds)
    ensures IdsOk(s'.db)
  {
    var codes := s'.db.codes;
    forall d | d in codes ensures codes[d].id < s'.db.nextCodeId {
      RowAfterConfirmation(s, s', e, u, ds, d);
    }
    forall d, f | d in codes && f in codes && codes[d].id == codes[f].id ensures d == f {
      RowAfterConfirmation(s, s', e, u, ds, d);
      RowAfterConfirmation(s, s', e, u, ds, f);
    }
  }

  lemma ConfirmationKeepsUses(s: State, s': State, e: Id, u: Id, ds: seq<Digest>, c: Id)
    requires CodeInv(s) && Confirms(s, s', e, u, ds)
    ensures UsesOk(s', c)
  {
    TraceAppend(s.trace, EnrollmentConfirmed(e, u));
    assert UsesOk(s, c);
    forall d | d in s'.db.codes && s'.db.codes[d].id == c && Uses(s.trace, c) > 0 ensures s'.db.codes[d].usedAt.Some? {
      RowAfterConfirmation(s, s', e, u, ds, d);
    }
  }

  function Range<T>(xs: seq<T>): set<T> {
    set x | x in xs
  }

  lemma {:induction false} RangeSize<T>(xs: seq<T>)
    ensures |Range(xs)| <= |xs|
  {
    if xs != [] {
      var front := xs[..|xs| - 1];
      RangeSize(front);
      assert Range(xs) == Range(front) + {xs[|xs| - 1]};
    }
  }

  lemma CodesAfterConfirmation(s: State, s': State, e: Id, u: Id, ds: seq<Digest>, v: Id)
    requires Confirms(s, s', e, u, ds)
    ensures CodesOf(s'.db, v) == if v == u then Range(ds) else CodesOf(s.db, v)
  {
    NewCodesAre(ds, e, u, s.db.nextCodeId);
    var kept, added := CodesOfOthers(s.db.codes, u), NewCodes(ds, e, u, s.db.nextCodeId);
    assert s'.db.codes == kept + added;
    forall d ensures d in CodesOf(s'.db, v) <==> (if v == u then d in ds else d in CodesOf(s.db, v)) {
      if d in ds {
        assert s'.db.codes[d] == added[d] && d !in kept;
      } else {
        assert d in s'.db.codes <==> d in kept;
        assert d in kept ==> s'.db.codes[d] == s.db.codes[d];
      }
    }
    assert v == u ==> CodesOf(s'.db, v) == Range(ds);
  }

  lemma OtherRowsStay(s: State, s': State, e: Id, u: Id, ds: seq<Digest>, v: Id, c: Id)
    requires Confirms(s, s', e, u, ds) && v != u && MarkedRow(s.db, v, c)
    ensures MarkedRow(s'.db, v, c)
  {
    NewCodesAre(ds, e, u, s.db.nextCodeId);
    var f :| f in s.db.codes && s.db.codes[f].userId == v && s.db.codes[f].id == c && s.db.codes[f].usedAt.Some?;
    assert f !in ds && s'.db.codes[f] == s.db.codes[f] by {
      assert f in CodesOfOthers(s.db.codes, u);
    }
  }

  lemma ConfirmationKeepsSpent(s: State, s': State, e: Id, u: Id, ds: seq<Digest>, v: Id)
    requires CodeInv(s) && Confirms(s, s', e, u, ds)
    ensures SpentOk(s', v)
  {
    TraceAppend(s.trace, EnrollmentConfirmed(e, u));
    assert SpentOk(s, v);
    CodesAfterConfirmation(s, s', e, u, ds, v);
    if v == u {
      RangeSize(ds);
    } else {
      var cs := CodesSinceConfirmation(s.trace, v);
      forall i | 0 <= i < |cs| ensures MarkedRow(s'.db, v, cs[i]) {
        OtherRowsStay(s, s', e, u, ds, v, cs[i]);
      }
    }
  }

  // ---------- other steps ----------

  lemma OtherStepsKeepCodes(s: State, s': State)
    requires CodeInv(s) && SameCodes(s, s')
    requires s'.trace == s.trace || exists v :: s'.trace == s.trace + [v] && (v.StepAccepted? || v.FailureRecorded?)
    ensures CodeInv(s')
  {
    if s'.trace != s.trace {
      var v :| s'.trace == s.trace + [v] && (v.StepAccepted? || v.FailureRecorded?);
      TraceAppend(s.trace, v);
    }
    forall c ensures UsesOk(s', c) {
      assert UsesOk(s, c);
    }
    forall u ensures SpentOk(s', u) {
      assert SpentOk(s, u);
      var cs := CodesSinceConfirmation(s.trace, u);
      forall i | 0 <= i < |cs| ensures MarkedRow(s'.db, u, cs[i]) {
        assert MarkedRow(s.db, u, cs[i]);
      }
    }
  }

  lemma CodeInvHolds(s: State, s': State)
    requires CodeInv(s) && Effect(s, s')
    ensures CodeInv(s')
  {
    if d, u :| AcceptsCode(s, s', d, u) {
      AcceptanceKeepsIds(s, s', d, u);
      forall c ensures UsesOk(s', c) { AcceptanceKeepsUses(s, s', d, u, c); }
      forall v ensures SpentOk(s', v) { AcceptanceKeepsSpent(s, s', d, u, v); }
    } else if e, u, ds :| Confirms(s, s', e, u, ds) {
      ConfirmationKeepsIds(s, s', e, u, ds);
      forall c ensures UsesOk(s', c) { ConfirmationKeepsUses(s, s', e, u, ds, c); }
      forall v ensures SpentOk(s', v) { ConfirmationKeepsSpent(s, s', e, u, ds, v); }
    } else {
      OtherStepsKeepCodes(s, s');
    }
  }

  lemma {:induction false} CodeInvOverRun(hmac: Hmac, s0: State, steps: seq<Step>)
    requires Initial(s0) && Run(hmac, s0, steps).Some?
    ensures CodeInv(Run(hmac, s0, steps).value)
    decreases |steps|
  {
    if steps != [] {
      var front := steps[..|steps| - 1];
      CodeInvOverRun(hmac, s0, front);
      var m := Run(hmac, s0, front).value;
      EveryStepHasEffect(hmac, m, steps[|steps| - 1]);
      CodeInvHolds(m, Run(hmac, s0, steps).value);
    } else {
      forall u ensures SpentOk(s0, u) { assert CodesOf(s0.db, u) == {}; }
    }
  }

  /** Distinct rows cannot outnumber the rows there are. */
  lemma {:induction false} RowsCount(db: Db, u: Id, cs: seq<Id>, rows: set<Digest>)
    requires IdsOk(db) && NoDuplicates(cs)
    requires forall i :: 0 <= i < |cs| ==> exists d :: d in rows && d in db.codes && db.codes[d].id == cs[i]
    ensures |cs| <= |rows|
  {
    if cs != [] {
      var front, last := cs[..|cs| - 1], cs[|cs| - 1];
      var d :| d in rows && d in db.codes && db.codes[d].id == last;
      forall i | 0 <= i < |front| ensures exists f :: f in rows - {d} && f in db.codes && db.codes[f].id == front[i] {
        var f :| f in rows && f in db.codes && db.codes[f].id == cs[i];
        assert f in rows - {d};
      }
      RowsCount(db, u, front, rows - {d});
    }
  }

  /** In every interleaving each recovery code is accepted at most once. */
  lemma EachCodeOnce(hmac: Hmac, s: State, c: Id)
    requires Reachable(hmac, s)
    ensures Uses(s.trace, c) <= 1
  {
    var s0, steps :| Initial(s0) && Run(hmac, s0, steps) == Some(s);
    CodeInvOverRun(hmac, s0, steps);
    assert UsesOk(s, c);
  }

  /** Between two confirmations a user's codes are accepted at most ten times in all. */
  lemma AtMostTenCodes(hmac: Hmac, s: State, u: Id)
    requires Reachable(hmac, s)
    ensures |CodesSinceConfirmation(s.trace, u)| <= 10
  {
    var s0, steps :| Initial(s0) && Run(hmac, s0, steps) == Some(s);
    CodeInvOverRun(hmac, s0, steps);
    assert SpentOk(s, u);
    var cs := CodesSinceConfirmation(s.trace, u);
    forall i | 0 <= i < |cs| ensures exists d :: d in CodesOf(s.db, u) && d in s.db.codes && s.db.codes[d].id == cs[i] {
      assert MarkedRow(s.db, u, cs[i]);
      var d :| d in s.db.codes && s.db.codes[d].userId == u && s.db.codes[d].id == cs[i];
      assert d in CodesOf(s.db, u);
    }
    RowsCount(s.db, u, cs, CodesOf(s.db, u));
  }
}
