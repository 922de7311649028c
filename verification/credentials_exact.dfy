/** Exactly when a reset request creates a token, a token completes a reset, and an access token is
    accepted, told from the run that led there. */
module CredentialsExact {
  import opened Credentials
  import opened CredentialsSafety
  import opened Wrappers

  // ---------- requests ----------

  /** The user's tokens created at `since` or later. */
  function Recent(tokens: Tokens, u: Id, since: Instant): set<nat> {
    set i: nat | i < |tokens| && tokens[i].userId == u && tokens[i].createdAt >= since
  }

  lemma {:induction false} CountIsSize(tokens: Tokens, u: Id, since: Instant)
    ensures CountSince(tokens, u, since) == |Recent(tokens, u, since)|
  {
    if tokens != [] {
      var n := |tokens| - 1;
      CountIsSize(tokens[..n], u, since);
      var rest := Recent(tokens[..n], u, since);
      if tokens[n].userId == u && tokens[n].createdAt >= since {
        assert Recent(tokens, u, since) == rest + {n};
      } else {
        assert Recent(tokens, u, since) == rest;
      }
    }
  }

  /** A password account that can receive reset messages. */
  predicate CanBeSent(p: Policy, accounts: map<Id, Account>, u: Id) {
    && u in accounts && accounts[u].active && !accounts[u].firebaseOwned && accounts[u].hasPassword
    && accounts[u].hasEmail && p.enabled
  }

  /** No token of the user in the cooldown, and fewer than the daily limit in the last 24 hours. */
  predicate BelowLimits(p: Policy, tokens: Tokens, u: Id, checked: Instant) {
    && (forall i :: 0 <= i < |tokens| && tokens[i].userId == u ==> tokens[i].createdAt < checked - p.cooldownSeconds * 1000)
    && |Recent(tokens, u, checked - 24 * 60 * 60 * 1000)| < p.dailyLimit
  }

  lemma NoneRecent(tokens: Tokens, u: Id, since: Instant)
    ensures |Recent(tokens, u, since)| == 0 <==> forall i :: 0 <= i < |tokens| && tokens[i].userId == u ==> tokens[i].createdAt < since
  {
    if |Recent(tokens, u, since)| == 0 {
      forall i | 0 <= i < |tokens| && tokens[i].userId == u ensures tokens[i].createdAt < since {
        assert i !in Recent(tokens, u, since);
      }
    } else {
      var i :| i in Recent(tokens, u, since);
    }
  }

  /** The cooldown is reported when there is a token in it, else the daily limit when it is reached. */
  lemma LimitsExactly(p: Policy, tokens: Tokens, u: Id, checked: Instant)
    ensures var limit := RateLimited(p, tokens, u, checked);
      && (limit.None? <==> BelowLimits(p, tokens, u, checked))
      && (limit == Some(CooldownLimited) <==>
            exists i :: 0 <= i < |tokens| && tokens[i].userId == u && tokens[i].createdAt >= checked - p.cooldownSeconds * 1000)
  {
    CountIsSize(tokens, u, checked - p.cooldownSeconds * 1000);
    CountIsSize(tokens, u, checked - DAY_MS);
    NoneRecent(tokens, u, checked - p.cooldownSeconds * 1000);
  }

  /** A request ends the user's live tokens and adds one, whose life starts with the request; nobody else's
      tokens change. */
  ghost predicate Issues(tokens: Tokens, r: Request, next: Tokens) {
    && |next| == |tokens| + 1
    && (forall i :: 0 <= i < |tokens| ==>
      if tokens[i].userId == r.userId && tokens[i].usedAt.None? && tokens[i].supersededAt.None? && tokens[i].expiresAt > r.now
      then next[i] == tokens[i].(supersededAt := Some(r.now)) else next[i] == tokens[i])
    && var t := next[|tokens|];
    && t.userId == r.userId && t.digest == r.digest && t.createdAt == r.created && t.expiresAt == r.expiryFrom + r.ttl
    && t.usedAt.None? && (t.supersededAt.None? <==> r.delivered)
  }

  /** A request creates a token if and only if the account can be sent one and the limits leave room; else it
      changes nothing. */
  lemma RequestsExactly(p: Policy, s: State, r: Request)
    ensures var next := Apply(p, s, RequestReset(r));
      && next.accounts == s.accounts
      && if CanBeSent(p, s.accounts, r.userId) && BelowLimits(p, s.tokens, r.userId, r.checked)
         then Issues(s.tokens, r, next.tokens) else next.tokens == s.tokens
  {
    LimitsExactly(p, s.tokens, r.userId, r.checked);
    assert SupersedeAll(s.tokens, r.userId, r.now) + [NewToken(r)] != s.tokens;
  }

  // ---------- completions ----------

  /** Step `j` of the run created token `id`. */
  ghost predicate IssuedAt(p: Policy, s0: State, steps: seq<Step>, j: nat, id: nat, r: Request) {
    && j < |steps| && steps[j] == RequestReset(r)
    && |After(p, s0, steps[..j]).tokens| == id && |After(p, s0, steps[..j + 1]).tokens| == id + 1
  }

  /** Step `k` of the run completed a reset with token `id`. */
  ghost predicate UsedAt(p: Policy, s0: State, steps: seq<Step>, k: nat, id: nat) {
    k < |steps| && steps[k].CompleteReset? && steps[k].id == id && After(p, s0, steps[..k + 1]) != After(p, s0, steps[..k])
  }

  /** After step `j`, another token was created for the user. */
  ghost predicate Replaced(p: Policy, s0: State, steps: seq<Step>, j: nat, u: Id) {
    exists k: nat, id: nat, r :: j < k && IssuedAt(p, s0, steps, k, id, r) && r.userId == u
  }

  ghost predicate Used(p: Policy, s0: State, steps: seq<Step>, id: nat) {
    exists k: nat :: UsedAt(p, s0, steps, k, id)
  }

  lemma IssuedBefore(p: Policy, s0: State, front: seq<Step>, steps: seq<Step>, j: nat, id: nat, r: Request)
    requires front <= steps && j < |front|
    ensures IssuedAt(p, s0, front, j, id, r) <==> IssuedAt(p, s0, steps, j, id, r)
  {
    assert front[..j] == steps[..j] && front[..j + 1] == steps[..j + 1];
  }

  lemma UsedBefore(p: Policy, s0: State, front: seq<Step>, steps: seq<Step>, id: nat)
    requires front <= steps && Used(p, s0, front, id)
    ensures Used(p, s0, steps, id)
  {
    var k: nat :| UsedAt(p, s0, front, k, id);
    assert front[..k] == steps[..k] && front[..k + 1] == steps[..k + 1];
    assert UsedAt(p, s0, steps, k, id);
  }

  lemma ReplacedBefore(p: Policy, s0: State, front: seq<Step>, steps: seq<Step>, j: nat, u: Id)
    requires front <= steps && Replaced(p, s0, front, j, u)
    ensures Replaced(p, s0, steps, j, u)
  {
    var k: nat, id: nat, r :| j < k && IssuedAt(p, s0, front, k, id, r) && r.userId == u;
    IssuedBefore(p, s0, front, steps, k, id, r);
  }

  lemma LastIs(p: Policy, s0: State, steps: seq<Step>)
    requires steps != []
    ensures After(p, s0, steps) == Apply(p, After(p, s0, steps[..|steps| - 1]), steps[|steps| - 1])
  {
  }

  /** What a step does to an old token. */
  lemma OldToken(p: Policy, s: State, step: Step, id: nat)
    requires id < |s.tokens|
    ensures var next := Apply(p, s, step);
      && id < |next.tokens|
      && var a, b := s.tokens[id], next.tokens[id];
      && b.userId == a.userId && b.expiresAt == a.expiresAt
      && (b.usedAt != a.usedAt ==> step.CompleteReset? && step.id == id && next != s)
      && (b.supersededAt != a.supersededAt ==> step.RequestReset? && step.r.userId == a.userId && |next.tokens| == |s.tokens| + 1)
  {
  }

  lemma NewTokenIs(p: Policy, s: State, r: Request)
    requires |Apply(p, s, RequestReset(r)).tokens| == |s.tokens| + 1
    ensures var t := Apply(p, s, RequestReset(r)).tokens[|s.tokens|];
      t.userId == r.userId && t.expiresAt == r.expiryFrom + r.ttl && t.usedAt.None? && (t.supersededAt.None? <==> r.delivered)
  {
  }

  /** The token's marks go back to steps of the run. */
  ghost predicate Explained(p: Policy, s0: State, steps: seq<Step>, j: nat, id: nat, r: Request, t: Token) {
    && (t.usedAt.Some? ==> Used(p, s0, steps, id))
    && (t.supersededAt.Some? ==> !r.delivered || Replaced(p, s0, steps, j, r.userId))
  }

  lemma StepExplains(p: Policy, s0: State, front: seq<Step>, step: Step, j: nat, id: nat, r: Request, s: State, next: State)
    requires s == After(p, s0, front) && next == Apply(p, s, step) && next == After(p, s0, front + [step])
    requires j < |front| && id < |s.tokens| && s.tokens[id].userId == r.userId
    requires Explained(p, s0, front, j, id, r, s.tokens[id])
    ensures id < |next.tokens| && Explained(p, s0, front + [step], j, id, r, next.tokens[id])
  {
    var steps, n := front + [step], |front|;
    assert steps[..n] == front && steps[..n + 1] == steps;
    OldToken(p, s, step, id);
    if Used(p, s0, front, id) { UsedBefore(p, s0, front, steps, id); }
    if Replaced(p, s0, front, j, r.userId) { ReplacedBefore(p, s0, front, steps, j, r.userId); }
    if next.tokens[id].usedAt != s.tokens[id].usedAt { assert UsedAt(p, s0, steps, n, id); }
    if next.tokens[id].supersededAt != s.tokens[id].supersededAt { assert IssuedAt(p, s0, steps, n, |s.tokens|, step.r); }
  }

  /** A created token stays the user's with its expiry; whatever mark it has goes back to a step of the run. */
  lemma {:induction false} IssuedToken(p: Policy, s0: State, steps: seq<Step>, j: nat, id: nat, r: Request)
    requires IssuedAt(p, s0, steps, j, id, r)
    ensures id < |After(p, s0, steps).tokens|
    ensures var t := After(p, s0, steps).tokens[id];
      t.userId == r.userId && t.expiresAt == r.expiryFrom + r.ttl && Explained(p, s0, steps, j, id, r, t)
    decreases |steps|
  {
    var n := |steps| - 1;
    var front, step := steps[..n], steps[n];
    assert steps[..n + 1] == steps && steps == front + [step];
    LastIs(p, s0, steps);
    var s := After(p, s0, front);
    if j == n {
      NewTokenIs(p, s, r);
    } else {
      IssuedBefore(p, s0, front, steps, j, id, r);
      IssuedToken(p, s0, front, j, id, r);
      OldToken(p, s, step, id);
      StepExplains(p, s0, front, step, j, id, r, s, After(p, s0, steps));
    }
  }

  lemma OnlyRequestsGrow(p: Policy, s: State, step: Step)
    ensures |Apply(p, s, step).tokens| == |s.tokens| || (step.RequestReset? && |Apply(p, s, step).tokens| == |s.tokens| + 1)
  {
  }

  /** Every token was created by some step. */
  lemma {:induction false} IssueOf(p: Policy, s0: State, steps: seq<Step>, id: nat) returns (j: nat, r: Request)
    requires s0.tokens == [] && id < |After(p, s0, steps).tokens|
    ensures IssuedAt(p, s0, steps, j, id, r)
    decreases |steps|
  {
    var n := |steps| - 1;
    var front, step := steps[..n], steps[n];
    assert steps[..n + 1] == steps;
    LastIs(p, s0, steps);
    OnlyRequestsGrow(p, After(p, s0, front), step);
    if id < |After(p, s0, front).tokens| {
      j, r := IssueOf(p, s0, front, id);
      IssuedBefore(p, s0, front, steps, j, id, r);
    } else {
      j, r := n, step.r;
    }
  }

  /** A used token is marked, in every later state. */
  lemma UsedIsMarked(p: Policy, s0: State, steps: seq<Step>, id: nat)
    requires Used(p, s0, steps, id)
    ensures id < |After(p, s0, steps).tokens| && After(p, s0, steps).tokens[id].usedAt.Some?
  {
    var k: nat :| UsedAt(p, s0, steps, k, id);
    assert steps[..k + 1][..k] == steps[..k];
    LastIs(p, s0, steps[..k + 1]);
    assert After(p, s0, steps[..k + 1]).tokens[id].usedAt.Some?;
    ResetOnce(p, s0, steps, k + 1);
  }

  /** A later token of the user has a later position. */
  lemma LaterIsHigher(p: Policy, s0: State, steps: seq<Step>, j: nat, id: nat, r: Request, k: nat, id': nat, r': Request)
    requires IssuedAt(p, s0, steps, j, id, r) && IssuedAt(p, s0, steps, k, id', r') && j < k
    ensures id < id'
  {
    assert steps[..k][..j + 1] == steps[..j + 1];
    ResetOnce(p, s0, steps[..k], j + 1);
  }

  /** The token can still complete a reset: its message was delivered, its life is not over, it was neither used nor
      replaced, and the account is an active one with a password of its own. */
  ghost predicate Usable(p: Policy, s0: State, steps: seq<Step>, id: nat, now: Instant, j: nat, r: Request) {
    && IssuedAt(p, s0, steps, j, id, r) && r.delivered && now < r.expiryFrom + r.ttl
    && !Used(p, s0, steps, id) && !Replaced(p, s0, steps, j, r.userId)
    && var accounts := After(p, s0, steps).accounts;
    r.userId in accounts && accounts[r.userId].active && !accounts[r.userId].firebaseOwned
  }

  lemma ReplacedIsNotLive(p: Policy, s0: State, steps: seq<Step>, j: nat, id: nat, r: Request, now: Instant)
    requires Initial(s0) && Possible(p, s0, steps) && IssuedAt(p, s0, steps, j, id, r) && Replaced(p, s0, steps, j, r.userId)
    requires NotBefore(After(p, s0, steps), r.userId, now)
    ensures id < |After(p, s0, steps).tokens| && !Live(After(p, s0, steps).tokens[id], now)
  {
    var k: nat, id': nat, r' :| j < k && IssuedAt(p, s0, steps, k, id', r') && r'.userId == r.userId;
    LaterIsHigher(p, s0, steps, j, id, r, k, id', r');
    IssuedToken(p, s0, steps, j, id, r);
    IssuedToken(p, s0, steps, k, id', r');
    TokensStaySafe(p, s0, steps);
  }

  /** A completion changes rows if and only if its token is usable. */
  lemma ResetsExactly(p: Policy, s0: State, steps: seq<Step>, id: nat, now: Instant)
    requires Initial(s0) && Possible(p, s0, steps) && CanHappen(After(p, s0, steps), CompleteReset(id, now))
    ensures var s := After(p, s0, steps);
      Apply(p, s, CompleteReset(id, now)) != s <==> exists j: nat, r :: Usable(p, s0, steps, id, now, j, r)
  {
    var s := After(p, s0, steps);
    CompletionChanges(p, s, id, now);
    if CanComplete(s.accounts, s.tokens, id, now) {
      var j, r := IssueOf(p, s0, steps, id);
      IssuedToken(p, s0, steps, j, id, r);
      if Used(p, s0, steps, id) { UsedIsMarked(p, s0, steps, id); }
      if Replaced(p, s0, steps, j, r.userId) { ReplacedIsNotLive(p, s0, steps, j, id, r, now); }
      DeliveredIfLive(p, s0, steps, j, id, r, now);
      assert Usable(p, s0, steps, id, now, j, r);
    }
    if j: nat, r :| Usable(p, s0, steps, id, now, j, r) {
      IssuedToken(p, s0, steps, j, id, r);
    }
  }

  lemma CompletionChanges(p: Policy, s: State, id: nat, now: Instant)
    ensures CanComplete(s.accounts, s.tokens, id, now) <==> Apply(p, s, CompleteReset(id, now)) != s
  {
    if CanComplete(s.accounts, s.tokens, id, now) {
      assert Apply(p, s, CompleteReset(id, now)).tokens[id].usedAt.Some?;
    }
  }

  /** An undelivered token is superseded from the start. */
  lemma DeliveredIfLive(p: Policy, s0: State, steps: seq<Step>, j: nat, id: nat, r: Request, now: Instant)
    requires IssuedAt(p, s0, steps, j, id, r) && id < |After(p, s0, steps).tokens| && Live(After(p, s0, steps).tokens[id], now)
    ensures r.delivered
  {
    assert steps[..j + 1][..j] == steps[..j];
    LastIs(p, s0, steps[..j + 1]);
    NewTokenIs(p, After(p, s0, steps[..j]), r);
    ResetOnce(p, s0, steps, j + 1);
  }

  /** What a completion does: the token is used, its user's version goes up by one, and that is all. */
  lemma ResetWrites(p: Policy, s: State, id: nat, now: Instant)
    requires Apply(p, s, CompleteReset(id, now)) != s
    ensures var next := Apply(p, s, CompleteReset(id, now));
      && id < |s.tokens| && next.tokens == s.tokens[id := s.tokens[id].(usedAt := Some(now))]
      && var u := s.tokens[id].userId;
      && u in s.accounts && u in next.accounts
      && next.accounts == s.accounts[u := s.accounts[u].(tokenVersion := next.accounts[u].tokenVersion)]
      && next.accounts[u].tokenVersion == s.accounts[u].tokenVersion + 1
  {
    CompletionChanges(p, s, id, now);
  }

  // ---------- access tokens ----------

  /** Step `k` of the run, or a later one, advances the version of `u`. */
  ghost predicate AdvancedSince(p: Policy, s0: State, steps: seq<Step>, i: nat, u: Id) {
    exists k: nat :: AdvancedAt(p, s0, steps, k, u) && i <= k
  }

  ghost predicate AdvancedAt(p: Policy, s0: State, steps: seq<Step>, k: nat, u: Id) {
    k < |steps| && Advances(After(p, s0, steps[..k]), steps[k], u)
  }

  lemma StepAdvances(p: Policy, s: State, step: Step, u: Id)
    requires u in s.accounts
    ensures var next := Apply(p, s, step).accounts;
      u in next && next[u].tokenVersion == s.accounts[u].tokenVersion + if Advances(s, step, u) then 1 else 0
  {
  }

  lemma AdvancedLast(p: Policy, s0: State, front: seq<Step>, step: Step, i: nat, u: Id)
    requires i <= |front|
    ensures AdvancedSince(p, s0, front + [step], i, u) <==>
      AdvancedSince(p, s0, front, i, u) || Advances(After(p, s0, front), step, u)
  {
    var steps, n := front + [step], |front|;
    assert steps[..n] == front;
    if AdvancedSince(p, s0, front, i, u) {
      var k: nat :| AdvancedAt(p, s0, front, k, u) && i <= k;
      assert front[..k] == steps[..k];
      assert AdvancedAt(p, s0, steps, k, u);
    }
    if AdvancedSince(p, s0, steps, i, u) && !Advances(After(p, s0, front), step, u) {
      var k: nat :| AdvancedAt(p, s0, steps, k, u) && i <= k;
      assert k != n && front[..k] == steps[..k];
      assert AdvancedAt(p, s0, front, k, u);
    }
    if Advances(After(p, s0, front), step, u) { assert AdvancedAt(p, s0, steps, n, u); }
  }

  lemma {:induction false} VersionSince(p: Policy, s0: State, steps: seq<Step>, i: nat, u: Id)
    requires i <= |steps| && u in After(p, s0, steps[..i]).accounts
    ensures var a, b := After(p, s0, steps[..i]).accounts, After(p, s0, steps).accounts;
      u in b && a[u].tokenVersion <= b[u].tokenVersion
      && (a[u].tokenVersion == b[u].tokenVersion <==> !AdvancedSince(p, s0, steps, i, u))
    decreases |steps|
  {
    if i == |steps| {
      assert steps[..i] == steps;
    } else {
      var n := |steps| - 1;
      var front := steps[..n];
      assert front[..i] == steps[..i] && steps == front + [steps[n]];
      LastIs(p, s0, steps);
      VersionSince(p, s0, front, i, u);
      StepAdvances(p, After(p, s0, front), steps[n], u);
      AdvancedLast(p, s0, front, steps[n], i, u);
    }
  }

  /** An access token whose version was read at some time is accepted later if and only if the account is
      active and neither a reset nor a revocation has advanced the version in between. */
  lemma AcceptedExactly(p: Policy, s0: State, steps: seq<Step>, i: nat, u: Id)
    requires Initial(s0) && Possible(p, s0, steps) && i <= |steps| && u in After(p, s0, steps[..i]).accounts
    ensures var s := After(p, s0, steps);
      Accepted(s, Claim(u, After(p, s0, steps[..i]).accounts[u].tokenVersion)) <==>
        u in s.accounts && s.accounts[u].active && !AdvancedSince(p, s0, steps, i, u)
  {
    VersionSince(p, s0, steps, i, u);
    ClaimsNeverAhead(p, s0, steps);
  }
}
