/** Which tokens can unlock a user after a reset by the admin. */
module IdentityUnlock {
  import opened Identity
  import opened IdentityLaws
  import opened IdentityTokens
  import opened IdentityResets

  /** A client has looked up a token of the user that is not consumed. */
  ghost predicate Outstanding(s: State, user: nat) {
    exists claim :: claim in s.claims && claim.token < |s.db.tokens|
      && s.db.tokens[claim.token].user == user && !s.db.tokens[claim.token].consumed
  }

  /** Looking the token up fails from `now` on. */
  predicate Dead(token: Token, now: int) {
    token.revoked || now >= token.expires || !(0 < |token.secret| <= 256)
  }

  /** A reset issued for a password leaves an activation token of the user usable. */
  ghost predicate ActivationIsLeft(tokens: seq<Token>, user: nat, now: int) {
    exists t :: 0 <= t < |tokens| && tokens[t].user == user && tokens[t].purpose.ACTIVATE_ACCOUNT?
      && !tokens[t].consumed && !Dead(tokens[t], now)
  }

  /** No token is looked up before `now`. */
  predicate LookupsFrom(ops: seq<Op>, now: int) {
    forall i :: 0 <= i < |ops| && ops[i].Lookup? ==> ops[i].now >= now
  }

  // ----- old tokens that can no longer be consumed -----

  /** The user's tokens that were not consumed before. */
  predicate IsOld(tokens: seq<Token>, user: nat, t: nat) {
    t < |tokens| && tokens[t].user == user && !tokens[t].consumed
  }

  /** None of the old tokens is consumed, claimed or can still be looked up. */
  ghost predicate OldAreDead(s: State, tokens: seq<Token>, user: nat, now: int) {
    && TokensHaveUsers(s.db) && |tokens| <= |s.db.tokens|
    && (forall t: nat :: IsOld(tokens, user, t) ==> !s.db.tokens[t].consumed && Dead(s.db.tokens[t], now))
    && (forall claim :: claim in s.claims ==> !IsOld(tokens, user, claim.token))
  }

  lemma StepKeepsDead(s: State, op: Op, tokens: seq<Token>, user: nat, now: int, c: Config)
    requires OldAreDead(s, tokens, user, now) && (op.Lookup? ==> op.now >= now)
    ensures OldAreDead(Step(s, op, c), tokens, user, now)
  {
    var after := Step(s, op, c);
    StepKeepsUsers(s, op, c);
    ClaimsAfter(s, op, c);
    if s.db.tokens != [] {
      TokenAfter(s, op, |s.db.tokens| - 1, c);
    }
    forall t: nat | IsOld(tokens, user, t) ensures !after.db.tokens[t].consumed && Dead(after.db.tokens[t], now) {
      TokenAfter(s, op, t, c);
      if Commits(s, op) {
        assert s.claims[op.claim] in s.claims;
      }
    }
    forall claim | claim in after.claims ensures !IsOld(tokens, user, claim.token) {
      if claim !in s.claims {
        NewClaim(s, op, claim, c);
      }
    }
  }

  lemma NewClaim(s: State, op: Op, claim: Claim, c: Config)
    requires claim in Step(s, op, c).claims && claim !in s.claims
    ensures op.Lookup? && claim.token < |s.db.tokens| && !Dead(s.db.tokens[claim.token], op.now)
  {
  }

  lemma {:induction false} DeadStayDead(s: State, ops: seq<Op>, tokens: seq<Token>, user: nat, now: int, c: Config)
    requires OldAreDead(s, tokens, user, now) && LookupsFrom(ops, now)
    ensures OldAreDead(Run(s, ops, c), tokens, user, now)
  {
    if ops != [] {
      DeadStayDead(s, ops[..|ops| - 1], tokens, user, now, c);
      StepKeepsDead(Run(s, ops[..|ops| - 1], c), ops[|ops| - 1], tokens, user, now, c);
    }
  }

  /** The tokens after a reset: those for a new password are revoked, the others are as before. */
  lemma TokensAfterReset(s: State, op: Op, user: nat, t: nat, c: Config)
    requires Resets(s, op, user, c) && IsOld(s.db.tokens, user, t)
    ensures var after := Step(s, op, c).db.tokens;
            && |s.db.tokens| < |after| && after[t] == s.db.tokens[t].(revoked := after[t].revoked)
            && (after[t].revoked <==> s.db.tokens[t].revoked || s.db.tokens[t].purpose.RESET_PASSWORD?)
  {
  }

  lemma ResetKillsOld(s: State, reset: State, op: Op, user: nat, now: int, c: Config)
    requires TokensAreSound(s) && TokensHaveUsers(s.db) && Resets(s, op, user, c) && reset == Step(s, op, c)
    requires !Outstanding(s, user) && !ActivationIsLeft(s.db.tokens, user, now)
    ensures OldAreDead(reset, s.db.tokens, user, now)
  {
    StepKeepsUsers(s, op, c);
    ResetLocks(s, op, c, user);
    forall t: nat | IsOld(s.db.tokens, user, t) ensures !reset.db.tokens[t].consumed && Dead(reset.db.tokens[t], now) {
      TokensAfterReset(s, op, user, t, c);
      assert s.db.tokens[t].purpose.ACTIVATE_ACCOUNT? ==> Dead(s.db.tokens[t], now);
    }
  }

  /** An old token of the user has been consumed. */
  ghost predicate OldConsumed(before: seq<Token>, after: seq<Token>, user: nat) {
    exists t: nat :: IsOld(before, user, t) && t < |after| && after[t].consumed
  }

  /** A token of the user from position `n` on has been consumed. */
  ghost predicate NewConsumed(n: nat, after: seq<Token>, user: nat) {
    exists t :: n <= t < |after| && after[t].user == user && after[t].consumed
  }

  /** After such a reset with no outstanding claim and no usable activation token, the token that
      unlocks the user is the one issued by the reset or a later one. */
  lemma OnlyNewTokensUnlock(before: seq<Op>, s: State, reset: State, user: nat, op: Op, now: int, after: seq<Op>,
                            end: State, c: Config)
    requires s == Run(START, before, c) && Resets(s, op, user, c)
    requires reset == Step(s, op, c) && end == Run(reset, after, c) && LookupsFrom(after, now)
    requires !Outstanding(s, user) && !ActivationIsLeft(s.db.tokens, user, now)
    ensures !OldConsumed(s.db.tokens, end.db.tokens, user)
    ensures Locked(end.db, user) || NewConsumed(|s.db.tokens|, end.db.tokens, user)
  {
    EveryRunIsSound(before, c);
    EveryTokenHasAUser(before, c);
    ResetKillsOld(s, reset, op, user, now, c);
    DeadStayDead(reset, after, s.db.tokens, user, now, c);
    if !NewConsumed(|s.db.tokens|, end.db.tokens, user) {
      UsersOfTokens(s, op, after, end, user, c);
      NoneConsumedSinceReset(s, op, end.db.tokens, user, c);
      ResetLocks(s, op, c, user);
      NoLoginUntilTokenConsumed(reset, after, c, user);
    }
  }

  lemma UsersOfTokens(s: State, op: Op, ops: seq<Op>, end: State, user: nat, c: Config)
    requires TokensHaveUsers(s.db) && end == Run(Step(s, op, c), ops, c)
    requires !OldConsumed(s.db.tokens, end.db.tokens, user) && !NewConsumed(|s.db.tokens|, end.db.tokens, user)
    ensures NoneConsumed(s.db.tokens, end.db.tokens, user)
  {
    StepKeepsUsers(s, op, c);
    forall t | 0 <= t < |s.db.tokens|
      ensures t < |end.db.tokens| && end.db.tokens[t].user == s.db.tokens[t].user
    {
      TokenAfter(s, op, t, c);
      ConsumedStays(Step(s, op, c), ops, t, c);
    }
  }

  // ----- old tokens that can be consumed -----

  /** No two tokens share their secret. */
  ghost predicate SecretsDiffer(tokens: seq<Token>) {
    forall i, j :: 0 <= i < j < |tokens| ==> tokens[i].secret != tokens[j].secret
  }

  lemma {:induction false} NotFound(tokens: seq<Token>, secret: string)
    ensures FindToken(tokens, secret) < 0 <==> forall i :: 0 <= i < |tokens| ==> tokens[i].secret != secret
  {
    if tokens != [] {
      NotFound(tokens[..|tokens| - 1], secret);
    }
  }

  lemma FoundBySecret(tokens: seq<Token>, t: nat)
    requires SecretsDiffer(tokens) && t < |tokens|
    ensures FindToken(tokens, tokens[t].secret) == t
  {
    NotFound(tokens, tokens[t].secret);
  }

  lemma IssuingKeepsSecrets(tokens: seq<Token>, user: nat, purpose: Purpose, secret: string, now: int, c: Config)
    requires SecretsDiffer(tokens) && FindToken(tokens, secret) < 0
    ensures SecretsDiffer(Issued(tokens, user, purpose, secret, now, c))
  {
    NotFound(tokens, secret);
  }

  lemma StepKeepsSecrets(s: State, op: Op, c: Config)
    requires SecretsDiffer(s.db.tokens) && TokensHaveUsers(s.db)
    ensures SecretsDiffer(Step(s, op, c).db.tokens)
  {
    if Issues(s, op, c) {
      var user := if op.Provision? then |s.db.users| else TaskOf(s, op).user;
      var purpose := if op.Provision? then ACTIVATE_ACCOUNT else TaskOf(s, op).purpose;
      IssuingKeepsSecrets(s.db.tokens, user, purpose, op.secret, op.now, c);
    } else if Commits(s, op) {
      var after := Step(s, op, c).db.tokens;
      assert forall i :: 0 <= i < |after| ==> after[i].secret == s.db.tokens[i].secret;
    } else {
      OtherwiseSameTokens(s, op, c);
    }
  }

  lemma {:induction false} EverySecretDiffers(ops: seq<Op>, c: Config)
    ensures SecretsDiffer(Run(START, ops, c).db.tokens)
  {
    if ops != [] {
      EverySecretDiffers(ops[..|ops| - 1], c);
      EveryTokenHasAUser(ops[..|ops| - 1], c);
      StepKeepsSecrets(Run(START, ops[..|ops| - 1], c), ops[|ops| - 1], c);
    }
  }

  /** What makes the status of the user fit a claim, and the consumption. */
  function Redeem(s: State, k: nat, name: string, now: int): seq<Op>
    requires k < |s.claims|
  {
    [Manage(name, s.claims[k].purpose.RESET_PASSWORD?), Apply(|s.tasks|), Consume(k, now)]
  }

  /** An unconsumed token that has been looked up can be consumed once the user's status fits. */
  lemma ClaimCommits(s: State, k: nat, user: nat, name: string, now: int, c: Config)
    requires TokensAreSound(s) && user == FindUser(s.db.users, name) && !s.db.users[user].status.PENDING?
    requires k < |s.claims| && IsOld(s.db.tokens, user, s.claims[k].token)
    ensures var after := Run(s, Redeem(s, k, name, now), c);
            |after.db.tokens| == |s.db.tokens| && after.db.tokens[s.claims[k].token].consumed
  {
    var manage := Manage(name, s.claims[k].purpose.RESET_PASSWORD?);
    var ready := Step(Step(s, manage, c), Apply(|s.tasks|), c);
    ThreeSteps(s, manage, Apply(|s.tasks|), Consume(k, now), c);
    ManageFits(s, user, name, manage.enabled, |s.tasks|, ready, c);
    assert s.claims[k] in s.claims;
    assert Commits(ready, Consume(k, now));
  }

  lemma {:induction false} RunFrom(s: State, first: Op, rest: seq<Op>, c: Config)
    ensures Run(s, [first] + rest, c) == Run(Step(s, first, c), rest, c)
  {
    var all := [first] + rest;
    if rest == [] {
      assert all[..|all| - 1] == [];
    } else {
      var front := rest[..|rest| - 1];
      assert all[..|all| - 1] == [first] + front && all[|all| - 1] == rest[|rest| - 1];
      RunFrom(s, first, front, c);
    }
  }

  lemma TokenIsFound(s: State, t: nat, password: string, now: int, c: Config)
    requires SecretsDiffer(s.db.tokens) && t < |s.db.tokens| && PasswordAllowed(password, c)
    requires !s.db.tokens[t].consumed && !Dead(s.db.tokens[t], now)
    ensures var token := s.db.tokens[t];
            Step(s, Lookup(token.secret, token.purpose, password, now), c)
            == s.(claims := s.claims + [Claim(t, token.purpose, password)])
  {
    FoundBySecret(s.db.tokens, t);
  }

  /** A usable activation token can be looked up and then consumed. */
  lemma ActivationCommits(s: State, t: nat, user: nat, name: string, now: int, c: Config) returns (ops: seq<Op>)
    requires TokensAreSound(s) && SecretsDiffer(s.db.tokens) && c.minLength <= c.maxLength
    requires user == FindUser(s.db.users, name) && !s.db.users[user].status.PENDING?
    requires IsOld(s.db.tokens, user, t) && !Dead(s.db.tokens[t], now)
    ensures LookupsFrom(ops, now) && |Run(s, ops, c).db.tokens| == |s.db.tokens|
    ensures Run(s, ops, c).db.tokens[t].consumed
  {
    var password, k := seq(c.minLength, i => 'x'), |s.claims|;
    var look := Lookup(s.db.tokens[t].secret, s.db.tokens[t].purpose, password, now);
    var found := Step(s, look, c);
    TokenIsFound(s, t, password, now, c);
    StepStaysSound(s, look, c);
    ClaimCommits(found, k, user, name, now, c);
    RunFrom(s, look, Redeem(found, k, name, now), c);
    ops := [look] + Redeem(found, k, name, now);
  }

  lemma ClaimOutlivesReset(s: State, reset: State, k: nat, user: nat, op: Op, name: string, now: int, c: Config)
      returns (ops: seq<Op>)
    requires TokensAreSound(s) && Resets(s, op, user, c) && reset == Step(s, op, c)
    requires user == FindUser(reset.db.users, name) && !reset.db.users[user].status.PENDING?
    requires k < |s.claims| && IsOld(s.db.tokens, user, s.claims[k].token)
    ensures LookupsFrom(ops, now) && OldConsumed(s.db.tokens, Run(reset, ops, c).db.tokens, user)
  {
    ResetLocks(s, op, c, user);
    TokensAfterReset(s, op, user, s.claims[k].token, c);
    StepStaysSound(s, op, c);
    ClaimCommits(reset, k, user, name, now, c);
    ops := Redeem(reset, k, name, now);
  }

  lemma ActivationOutlivesReset(s: State, reset: State, user: nat, op: Op, name: string, now: int, c: Config)
      returns (ops: seq<Op>)
    requires TokensAreSound(s) && TokensHaveUsers(s.db) && SecretsDiffer(s.db.tokens) && c.minLength <= c.maxLength
    requires Resets(s, op, user, c) && reset == Step(s, op, c) && ActivationIsLeft(s.db.tokens, user, now)
    requires user == FindUser(reset.db.users, name) && !reset.db.users[user].status.PENDING?
    ensures LookupsFrom(ops, now) && OldConsumed(s.db.tokens, Run(reset, ops, c).db.tokens, user)
  {
    var t: nat :| && IsOld(s.db.tokens, user, t) && s.db.tokens[t].purpose.ACTIVATE_ACCOUNT?
                  && !Dead(s.db.tokens[t], now);
    TokensAfterReset(s, op, user, t, c);
    StepStaysSound(s, op, c);
    StepKeepsSecrets(s, op, c);
    ops := ActivationCommits(reset, t, user, name, now, c);
  }

  /** After such a reset a token of the user issued before it can still be consumed exactly when
      a client had looked one up, or an activation token of the user is left that is usable. */
  lemma OldTokenIsConsumedIff(before: seq<Op>, s: State, reset: State, user: nat, op: Op, now: int, c: Config)
    requires s == Run(START, before, c) && Resets(s, op, user, c) && reset == Step(s, op, c)
    requires c.minLength <= c.maxLength
    ensures (exists after :: LookupsFrom(after, now) && OldConsumed(s.db.tokens, Run(reset, after, c).db.tokens, user))
        <==> Outstanding(s, user) || ActivationIsLeft(s.db.tokens, user, now)
  {
    var name := ResetUser(before, s, reset, op, user, c);
    EveryRunIsSound(before, c);
    EverySecretDiffers(before, c);
    EveryTokenHasAUser(before, c);
    if Outstanding(s, user) {
      var claim :| claim in s.claims && IsOld(s.db.tokens, user, claim.token);
      var k :| 0 <= k < |s.claims| && s.claims[k] == claim;
      var ops := ClaimOutlivesReset(s, reset, k, user, op, name, now, c);
    } else if ActivationIsLeft(s.db.tokens, user, now) {
      var ops := ActivationOutlivesReset(s, reset, user, op, name, now, c);
    } else {
      forall after | LookupsFrom(after, now) ensures !OldConsumed(s.db.tokens, Run(reset, after, c).db.tokens, user) {
        OnlyNewTokensUnlock(before, s, reset, user, op, now, after, Run(reset, after, c), c);
      }
    }
  }
}
