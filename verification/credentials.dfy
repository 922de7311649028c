/** Password-reset tokens and access-token versions. */
module Credentials {
  import opened Wrappers

  type Id = nat
  type Instant = int

  const DAY_MS := 86_400_000

  /** `firebaseOwned` marks a citizen who signs in through Firebase. */
  datatype Account = Account(tokenVersion: int, active: bool, firebaseOwned: bool, hasPassword: bool, hasEmail: bool)

  datatype Token = Token(userId: Id, digest: string, createdAt: Instant, expiresAt: Instant,
                         usedAt: Option<Instant>, supersededAt: Option<Instant>)

  /** `enabled` says whether reset messages can be delivered at all. */
  datatype Policy = Policy(enabled: bool, cooldownSeconds: nat, dailyLimit: nat)

  predicate MayComplete(accounts: map<Id, Account>, u: Id) {
    u in accounts && accounts[u].active && !accounts[u].firebaseOwned
  }

  /** The account checks of createPasswordResetToken. */
  predicate MayRequest(p: Policy, accounts: map<Id, Account>, u: Id) {
    MayComplete(accounts, u) && accounts[u].hasPassword && accounts[u].hasEmail && p.enabled
  }

  datatype Limit = CooldownLimited | DailyLimited

  /** Tokens in the order of their creation; a token's id is its position. */
  type Tokens = seq<Token>

  predicate Live(t: Token, now: Instant) {
    t.usedAt.None? && t.supersededAt.None? && t.expiresAt > now
  }

  /** The number of a user's tokens created no earlier than `since`. */
  function CountSince(tokens: Tokens, userId: Id, since: Instant): (n: nat)
    ensures n <= |tokens|
  {
    if tokens == [] then 0
    else
      var t := tokens[|tokens| - 1];
      CountSince(tokens[..|tokens| - 1], userId, since) + if t.userId == userId && t.createdAt >= since then 1 else 0
  }

  /** passwordResetRateLimited */
  function RateLimited(p: Policy, tokens: Tokens, userId: Id, now: Instant): Option<Limit> {
    if CountSince(tokens, userId, now - p.cooldownSeconds * 1000) > 0 then Some(CooldownLimited)
    else if CountSince(tokens, userId, now - DAY_MS) >= p.dailyLimit then Some(DailyLimited)
    else None
  }

  function Superseded(t: Token, userId: Id, now: Instant): Token {
    if t.userId == userId && Live(t, now) then t.(supersededAt := Some(now)) else t
  }

  /** The `updateMany` that ends the user's live tokens. */
  function SupersedeAll(tokens: Tokens, userId: Id, now: Instant): (r: Tokens)
    ensures |r| == |tokens| && forall i :: 0 <= i < |r| ==> r[i] == Superseded(tokens[i], userId, now)
  {
    seq(|tokens|, i requires 0 <= i < |tokens| => Superseded(tokens[i], userId, now))
  }

  /** The times of one request in the order they are taken: rate check, expiry, update, the database's
      creation time, and the end of the delivery. */
  datatype Request = Request(userId: Id, digest: string, checked: Instant, expiryFrom: Instant, ttl: nat,
                             now: Instant, created: Instant, delivered: bool, ended: Instant)

  predicate InOrder(r: Request) {
    r.checked <= r.expiryFrom <= r.now <= r.created <= r.ended
  }

  function NewToken(r: Request): Token {
    Token(r.userId, r.digest, r.created, r.expiryFrom + r.ttl, None, if r.delivered then None else Some(r.ended))
  }

  /** createPasswordResetToken for an eligible account, from the check to the delivery. */
  function CreateToken(p: Policy, tokens: Tokens, r: Request): Tokens {
    if RateLimited(p, tokens, r.userId, r.checked).Some? then tokens
    else SupersedeAll(tokens, r.userId, r.now) + [NewToken(r)]
  }

  class AuthService {
    const policy: Policy
    var accounts: map<Id, Account>
    var tokens: seq<Token>

    method CountCreatedSince(userId: Id, since: Instant) returns (n: nat)
      ensures n == CountSince(tokens, userId, since)
    {
      n := 0;
      assert tokens[..0] == [];
      for i := 0 to |tokens|
        invariant n == CountSince(tokens[..i], userId, since)
      {
        assert tokens[..i + 1][..i] == tokens[..i];
        if tokens[i].userId == userId && tokens[i].createdAt >= since {
          n := n + 1;
        }
      }
      assert tokens[..|tokens|] == tokens;
    }

    method PasswordResetRateLimited(userId: Id, now: Instant) returns (limit: Option<Limit>)
      ensures limit == RateLimited(policy, tokens, userId, now)
    {
      var recent := CountCreatedSince(userId, now - policy.cooldownSeconds * 1000);
      var daily := CountCreatedSince(userId, now - DAY_MS);
      if recent > 0 {
        return Some(CooldownLimited);
      }
      if daily >= policy.dailyLimit {
        return Some(DailyLimited);
      }
      return None;
    }

    /** createPasswordResetToken: the account checks, the rate limit, the transaction and the delivery. */
    method CreatePasswordResetToken(r: Request) returns (created: bool)
      modifies this`tokens
      ensures created == (MayRequest(policy, accounts, r.userId) && RateLimited(policy, old(tokens), r.userId, r.checked).None?)
      ensures tokens == if MayRequest(policy, accounts, r.userId) then CreateToken(policy, old(tokens), r) else old(tokens)
    {
      if r.userId !in accounts {
        return false;
      }
      var target := accounts[r.userId];
      if !target.hasPassword || !target.active || target.firebaseOwned {
        return false;
      }
      if !policy.enabled || !target.hasEmail {
        return false;
      }
      var limited := PasswordResetRateLimited(r.userId, r.checked);
      if limited.Some? {
        return false;
      }
      ghost var before := tokens;
      for i := 0 to |tokens|
        invariant |tokens| == |before|
        invariant forall j :: 0 <= j < i ==> tokens[j] == Superseded(before[j], r.userId, r.now)
        invariant forall j :: i <= j < |tokens| ==> tokens[j] == before[j]
      {
        var t := tokens[i];
        if t.userId == r.userId && t.usedAt.None? && t.supersededAt.None? && t.expiresAt > r.now {
          tokens := tokens[i := t.(supersededAt := Some(r.now))];
        }
      }
      assert tokens == SupersedeAll(before, r.userId, r.now);
      var id := |tokens|;
      tokens := tokens + [Token(r.userId, r.digest, r.created, r.expiryFrom + r.ttl, None, None)];
      if !r.delivered {
        tokens := tokens[id := tokens[id].(supersededAt := Some(r.ended))];
      }
      return true;
    }

    /** completePasswordReset for the token found by its digest: use it and advance the version. Only a token
        that has not run out, of an active account that signs in with a password, does. */
    method CompletePasswordReset(id: nat, now: Instant) returns (done: bool)
      modifies this`accounts, this`tokens
      ensures done ==> id < |old(tokens)| && now < old(tokens)[id].expiresAt
      ensures done ==> old(tokens)[id].usedAt.None? && old(tokens)[id].supersededAt.None?
      ensures done ==> old(tokens)[id].userId in old(accounts) && old(accounts)[old(tokens)[id].userId].active
      ensures done ==> !old(accounts)[old(tokens)[id].userId].firebaseOwned
      ensures done == CanComplete(old(accounts), old(tokens), id, now)
      ensures tokens == if done then old(tokens)[id := old(tokens)[id].(usedAt := Some(now))] else old(tokens)
      ensures accounts == if done then Advanced(old(accounts), old(tokens)[id].userId) else old(accounts)
    {
      if id >= |tokens| {
        return false;
      }
      var record := tokens[id];
      if record.usedAt.Some? || record.supersededAt.Some? || record.expiresAt <= now {
        return false;
      }
      if record.userId !in accounts || !accounts[record.userId].active || accounts[record.userId].firebaseOwned {
        return false;
      }
      tokens := tokens[id := record.(usedAt := Some(now))];
      var user := accounts[record.userId];
      accounts := accounts[record.userId := user.(tokenVersion := user.tokenVersion + 1)];
      return true;
    }
  }

  function Advanced(accounts: map<Id, Account>, u: Id): map<Id, Account> {
    if u in accounts then accounts[u := accounts[u].(tokenVersion := accounts[u].tokenVersion + 1)] else accounts
  }

  predicate CanComplete(accounts: map<Id, Account>, tokens: Tokens, id: nat, now: Instant) {
    id < |tokens| && Live(tokens[id], now) && MayComplete(accounts, tokens[id].userId)
  }
}
