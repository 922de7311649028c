/** What every run of reset requests, resets, logins and session revocations keeps. The reset requests and
    resets of one user run one at a time, those of different users overlap freely: each user has a clock of
    its own. The reads and issues of logins may lie anywhere between other steps. */
module CredentialsSafety {
  import opened Credentials
  import opened Wrappers

  /** What an access token claims. */
  datatype Claim = Claim(userId: Id, version: int)

  /** `read` are the claims of user rows that some request has read and may still issue; `clock` is the end
      of each user's last request or reset. */
  datatype State = State(accounts: map<Id, Account>, tokens: Tokens, read: set<Claim>, issued: set<Claim>,
                         clock: map<Id, Instant>)

  datatype Step =
    | SetAccount(u: Id, account: Account)
    | ReadUser(u: Id)
    | IssueToken(c: Claim)
    | RequestReset(r: Request)
    | CompleteReset(id: nat, now: Instant)
    | RevokeSessions(u: Id)

  predicate NotBefore(s: State, u: Id, now: Instant) {
    u in s.clock ==> s.clock[u] <= now
  }

  predicate CanHappen(s: State, step: Step) {
    match step
    case SetAccount(_, _) => true
    case ReadUser(u) => u in s.accounts
    case IssueToken(c) => c in s.read
    case RequestReset(r) => InOrder(r) && NotBefore(s, r.userId, r.checked)
    case CompleteReset(id, now) => id < |s.tokens| ==> NotBefore(s, s.tokens[id].userId, now)
    case RevokeSessions(u) => u in s.accounts
  }

  function Apply(p: Policy, s: State, step: Step): State {
    match step
    case SetAccount(u, account) =>
      var version := if u in s.accounts then s.accounts[u].tokenVersion else 0;
      s.(accounts := s.accounts[u := account.(tokenVersion := version)])
    case ReadUser(u) =>
      if u in s.accounts then s.(read := s.read + {Claim(u, s.accounts[u].tokenVersion)}) else s
    case IssueToken(c) => s.(issued := s.issued + {c.(version := if c.version >= 0 then c.version else 0)})
    case RequestReset(r) =>
      s.(tokens := if MayRequest(p, s.accounts, r.userId) then CreateToken(p, s.tokens, r) else s.tokens,
         clock := s.clock[r.userId := r.ended])
    case CompleteReset(id, now) =>
      if CanComplete(s.accounts, s.tokens, id, now)
      then s.(tokens := s.tokens[id := s.tokens[id].(usedAt := Some(now))],
              accounts := Advanced(s.accounts, s.tokens[id].userId), clock := s.clock[s.tokens[id].userId := now])
      else s
    case RevokeSessions(u) => s.(accounts := Advanced(s.accounts, u))
  }

  function After(p: Policy, s: State, steps: seq<Step>): State
    decreases |steps|
  {
    if steps == [] then s else Apply(p, After(p, s, steps[..|steps| - 1]), steps[|steps| - 1])
  }

  predicate Possible(p: Policy, s: State, steps: seq<Step>) {
    forall i :: 0 <= i < |steps| ==> CanHappen(After(p, s, steps[..i]), steps[i])
  }

  predicate Initial(s: State) {
    s.accounts == map[] && s.tokens == [] && s.read == {} && s.issued == {} && s.clock == map[]
  }

  /** JwtStrategy.validate */
  predicate Accepted(s: State, c: Claim) {
    && c.userId in s.accounts && s.accounts[c.userId].active
    && c.version == s.accounts[c.userId].tokenVersion && s.accounts[c.userId].tokenVersion >= 0
  }

  // ---------- reset tokens ----------

  /** The number of a user's tokens created in the 24 hours from `w`, both ends included. */
  function InDay(tokens: Tokens, u: Id, w: Instant): nat {
    if tokens == [] then 0
    else
      var t := tokens[|tokens| - 1];
      InDay(tokens[..|tokens| - 1], u, w) + if t.userId == u && w <= t.createdAt <= w + DAY_MS then 1 else 0
  }

  type Clocks = map<Id, Instant>

  /** A user's tokens are in the order of their creation, none after the user's clock. */
  ghost predicate Ordered(tokens: Tokens, clock: Clocks) {
    && (forall i :: 0 <= i < |tokens| ==> tokens[i].userId in clock && tokens[i].createdAt <= clock[tokens[i].userId])
    && (forall i, j :: 0 <= i < j < |tokens| && tokens[i].userId == tokens[j].userId ==>
      tokens[i].createdAt <= tokens[j].createdAt)
  }

  /** Two tokens of a user are more than the cooldown apart. */
  ghost predicate Spaced(p: Policy, tokens: Tokens) {
    forall i, j :: 0 <= i < j < |tokens| && tokens[i].userId == tokens[j].userId ==>
      tokens[j].createdAt - tokens[i].createdAt > p.cooldownSeconds * 1000
  }

  /** Every 24-hour window holds at most the daily limit of a user's tokens. */
  ghost predicate Limited(p: Policy, tokens: Tokens) {
    forall u: Id, w :: InDay(tokens, u, w) <= p.dailyLimit
  }

  /** Of a user's tokens only the newest can be live, now or later. */
  ghost predicate OnlyNewestLive(tokens: Tokens, clock: Clocks) {
    forall i, j :: 0 <= i < j < |tokens| && tokens[i].userId == tokens[j].userId ==>
      tokens[i].userId in clock && forall now :: clock[tokens[i].userId] <= now ==> !Live(tokens[i], now)
  }

  ghost predicate TokensSafe(p: Policy, tokens: Tokens, clock: Clocks) {
    Ordered(tokens, clock) && Spaced(p, tokens) && Limited(p, tokens) && OnlyNewestLive(tokens, clock)
  }

  lemma {:induction false} NoneSince(tokens: Tokens, u: Id, since: Instant, i: nat)
    requires CountSince(tokens, u, since) == 0 && i < |tokens| && tokens[i].userId == u
    ensures tokens[i].createdAt < since
  {
    if i < |tokens| - 1 { NoneSince(tokens[..|tokens| - 1], u, since, i); }
  }

  lemma {:induction false} WindowWithin(tokens: Tokens, u: Id, w: Instant, since: Instant)
    requires since <= w
    ensures InDay(tokens, u, w) <= CountSince(tokens, u, since)
  {
    if tokens != [] { WindowWithin(tokens[..|tokens| - 1], u, w, since); }
  }

  ghost predicate SameCreation(a: Tokens, b: Tokens) {
    |a| == |b| && forall i :: 0 <= i < |a| ==> a[i].userId == b[i].userId && a[i].createdAt == b[i].createdAt
  }

  lemma {:induction false} SameCounts(a: Tokens, b: Tokens, u: Id, w: Instant)
    requires SameCreation(a, b)
    ensures InDay(a, u, w) == InDay(b, u, w)
  {
    if a != [] { SameCounts(a[..|a| - 1], b[..|b| - 1], u, w); }
  }

  lemma CreateKeepsLimit(p: Policy, tokens: Tokens, r: Request)
    requires Limited(p, tokens) && InOrder(r) && RateLimited(p, tokens, r.userId, r.checked).None?
    ensures Limited(p, CreateToken(p, tokens, r))
  {
    var kept := SupersedeAll(tokens, r.userId, r.now);
    var next := kept + [NewToken(r)];
    assert next[..|kept|] == kept;
    forall u: Id, w ensures InDay(next, u, w) <= p.dailyLimit {
      SameCounts(kept, tokens, u, w);
      if u == r.userId && w <= r.created <= w + DAY_MS {
        WindowWithin(tokens, u, w, r.checked - DAY_MS);
      }
    }
  }

  lemma CreateKeepsSpacing(p: Policy, tokens: Tokens, r: Request)
    requires Spaced(p, tokens) && InOrder(r) && RateLimited(p, tokens, r.userId, r.checked).None?
    ensures Spaced(p, CreateToken(p, tokens, r))
  {
    var n := |tokens|;
    var next := CreateToken(p, tokens, r);
    assert next[n] == NewToken(r);
    forall i | 0 <= i < n && tokens[i].userId == r.userId
      ensures r.created - tokens[i].createdAt > p.cooldownSeconds * 1000
    {
      NoneSince(tokens, r.userId, r.checked - p.cooldownSeconds * 1000, i);
    }
    assert forall i :: 0 <= i < n ==> next[i].userId == tokens[i].userId && next[i].createdAt == tokens[i].createdAt;
  }

  lemma CreateKeepsOneLive(p: Policy, tokens: Tokens, r: Request, clock: Clocks)
    requires Ordered(tokens, clock) && OnlyNewestLive(tokens, clock) && InOrder(r)
    requires r.userId in clock ==> clock[r.userId] <= r.checked
    requires RateLimited(p, tokens, r.userId, r.checked).None?
    ensures Ordered(CreateToken(p, tokens, r), clock[r.userId := r.ended])
    ensures OnlyNewestLive(CreateToken(p, tokens, r), clock[r.userId := r.ended])
  {
    var n := |tokens|;
    var next := CreateToken(p, tokens, r);
    assert next[n] == NewToken(r);
    assert forall i :: 0 <= i < n ==> next[i] == Superseded(tokens[i], r.userId, r.now);
  }

  lemma UseKeepsTokens(p: Policy, tokens: Tokens, id: nat, now: Instant, clock: Clocks)
    requires TokensSafe(p, tokens, clock) && id < |tokens| && clock[tokens[id].userId] <= now
    ensures TokensSafe(p, tokens[id := tokens[id].(usedAt := Some(now))], clock[tokens[id].userId := now])
  {
    var next := tokens[id := tokens[id].(usedAt := Some(now))];
    forall u: Id, w ensures InDay(next, u, w) <= p.dailyLimit {
      SameCounts(next, tokens, u, w);
    }
  }

  lemma LimitedKeepsTokens(p: Policy, tokens: Tokens, u: Id, now: Instant, clock: Clocks)
    requires TokensSafe(p, tokens, clock) && (u in clock ==> clock[u] <= now)
    ensures TokensSafe(p, tokens, clock[u := now])
  {
  }

  lemma {:induction false} TokensStaySafe(p: Policy, s: State, steps: seq<Step>)
    requires Initial(s) && Possible(p, s, steps)
    ensures var t := After(p, s, steps); TokensSafe(p, t.tokens, t.clock)
    decreases |steps|
  {
    if steps != [] {
      var n := |steps| - 1;
      PossiblePrefix(p, s, steps);
      TokensStaySafe(p, s, steps[..n]);
      var before, step := After(p, s, steps[..n]), steps[n];
      if step.RequestReset? && MayRequest(p, before.accounts, step.r.userId)
         && RateLimited(p, before.tokens, step.r.userId, step.r.checked).None? {
        CreateKeepsLimit(p, before.tokens, step.r);
        CreateKeepsSpacing(p, before.tokens, step.r);
        CreateKeepsOneLive(p, before.tokens, step.r, before.clock);
      } else if step.RequestReset? {
        LimitedKeepsTokens(p, before.tokens, step.r.userId, step.r.ended, before.clock);
      } else if step.CompleteReset? && CanComplete(before.accounts, before.tokens, step.id, step.now) {
        UseKeepsTokens(p, before.tokens, step.id, step.now, before.clock);
      }
    }
  }

  lemma PossiblePrefix(p: Policy, s: State, steps: seq<Step>)
    requires steps != [] && Possible(p, s, steps)
    ensures var n := |steps| - 1;
      Possible(p, s, steps[..n]) && CanHappen(After(p, s, steps[..n]), steps[n])
  {
    var before := steps[..|steps| - 1];
    forall i | 0 <= i < |before| ensures before[..i] == steps[..i] {}
  }

  // ---------- access tokens ----------

  ghost predicate ClaimsBehind(s: State) {
    && (forall u :: u in s.accounts ==> s.accounts[u].tokenVersion >= 0)
    && (forall c :: c in s.read + s.issued ==>
      c.userId in s.accounts && 0 <= c.version <= s.accounts[c.userId].tokenVersion)
  }

  /** In every reachable state no claim, read or issued, is ahead of the stored version. */
  lemma {:induction false} ClaimsNeverAhead(p: Policy, s: State, steps: seq<Step>)
    requires Initial(s) && Possible(p, s, steps)
    ensures ClaimsBehind(After(p, s, steps))
    decreases |steps|
  {
    if steps != [] {
      PossiblePrefix(p, s, steps);
      ClaimsNeverAhead(p, s, steps[..|steps| - 1]);
    }
  }

  /** The step advances the version of `u`: a reset with one of its tokens or a revocation. */
  predicate Advances(s: State, step: Step, u: Id) {
    || (step.RevokeSessions? && step.u == u && u in s.accounts)
    || (step.CompleteReset? && CanComplete(s.accounts, s.tokens, step.id, step.now) && s.tokens[step.id].userId == u)
  }

  type Accounts = map<Id, Account>

  /** No account is removed and no version goes back. */
  ghost predicate NoVersionBack(a: Accounts, b: Accounts) {
    forall u :: u in a ==> u in b && a[u].tokenVersion <= b[u].tokenVersion
  }

  lemma {:induction false} VersionsGrow(p: Policy, s: State, steps: seq<Step>, i: nat)
    requires i <= |steps|
    ensures NoVersionBack(After(p, s, steps[..i]).accounts, After(p, s, steps).accounts)
    decreases |steps|
  {
    if i == |steps| {
      assert steps[..i] == steps;
    } else {
      var before := steps[..|steps| - 1];
      assert before[..i] == steps[..i];
      VersionsGrow(p, s, before, i);
      StepGrowsVersions(p, After(p, s, before), steps[|before|]);
    }
  }

  lemma StepGrowsVersions(p: Policy, s: State, step: Step)
    ensures NoVersionBack(s.accounts, Apply(p, s, step).accounts)
  {
  }

  /** After a completed reset or a revocation, no token is accepted again whose version was read before. */
  lemma RevokedForGood(p: Policy, s: State, steps: seq<Step>, i: nat, c: Claim)
    requires Initial(s) && Possible(p, s, steps) && i < |steps|
    requires c in After(p, s, steps[..i]).read + After(p, s, steps[..i]).issued
    requires Advances(After(p, s, steps[..i]), steps[i], c.userId)
    ensures !Accepted(After(p, s, steps), c)
  {
    PossibleUpTo(p, s, steps, i);
    ClaimsNeverAhead(p, s, steps[..i]);
    AdvanceOvertakes(p, After(p, s, steps[..i]), steps[i], c);
    assert steps[..i + 1][..i] == steps[..i];
    VersionsGrow(p, s, steps, i + 1);
  }

  lemma AdvanceOvertakes(p: Policy, s: State, step: Step, c: Claim)
    requires ClaimsBehind(s) && c in s.read + s.issued && Advances(s, step, c.userId)
    ensures var next := Apply(p, s, step).accounts; c.userId in next && c.version < next[c.userId].tokenVersion
  {
  }

  lemma PossibleUpTo(p: Policy, s: State, steps: seq<Step>, i: nat)
    requires Possible(p, s, steps) && i <= |steps|
    ensures Possible(p, s, steps[..i])
  {
    forall j | 0 <= j < i ensures steps[..i][..j] == steps[..j] {}
  }

  /** Tokens are not removed, keep user and times, and stay used or superseded once they are. */
  ghost predicate MarksStay(a: Tokens, b: Tokens) {
    |a| <= |b| && forall k :: 0 <= k < |a| ==>
      b[k].userId == a[k].userId && b[k].createdAt == a[k].createdAt && b[k].expiresAt == a[k].expiresAt
      && (a[k].usedAt.Some? ==> b[k].usedAt.Some?) && (a[k].supersededAt.Some? ==> b[k].supersededAt.Some?)
  }

  /** A token stays used or superseded once it is, so it completes at most one reset. */
  lemma {:induction false} ResetOnce(p: Policy, s: State, steps: seq<Step>, i: nat)
    requires i <= |steps|
    ensures MarksStay(After(p, s, steps[..i]).tokens, After(p, s, steps).tokens)
    decreases |steps|
  {
    if i == |steps| {
      assert steps[..i] == steps;
    } else {
      var before := steps[..|steps| - 1];
      assert before[..i] == steps[..i];
      ResetOnce(p, s, before, i);
      StepKeepsMarks(p, After(p, s, before), steps[|before|]);
    }
  }

  lemma StepKeepsMarks(p: Policy, s: State, step: Step)
    ensures MarksStay(s.tokens, Apply(p, s, step).tokens)
  {
  }
}
