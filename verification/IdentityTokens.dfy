/** When a token that a client looked up earlier is still current at the moment it is consumed. */
module IdentityTokens {
  import opened Options
  import opened Identity
  import opened IdentityLaws

  // ----- supersession -----

  /** The operation issues a token to this user for this purpose. */
  predicate IssuesFor(s: State, op: Op, user: nat, purpose: Purpose, c: Config) {
    && Issues(s, op, c)
    && if op.Provision? then user == |s.db.users| && purpose.ACTIVATE_ACCOUNT?
       else TaskOf(s, op) == Reset(user, purpose)
  }

  /** Since claim `k` was made, a token was issued to this user for this purpose. */
  predicate IssuedSince(ops: seq<Op>, k: nat, user: nat, purpose: Purpose, c: Config) {
    if ops == [] then false
    else
      var front := ops[..|ops| - 1];
      || IssuedSince(front, k, user, purpose, c)
      || (k < |Run(START, front, c).claims| && IssuesFor(Run(START, front, c), ops[|ops| - 1], user, purpose, c))
  }

  lemma SupersedeRevokes(tokens: seq<Token>, user: nat, purpose: Purpose, t: nat)
    requires t < |tokens|
    ensures var after := Supersede(tokens, user, purpose)[t];
            && after == tokens[t].(revoked := after.revoked)
            && (!after.consumed ==> (after.revoked
                  <==> tokens[t].revoked || (tokens[t].user == user && tokens[t].purpose == purpose)))
  {
  }

  /** Issuing revokes exactly the live tokens of the user and the purpose. */
  lemma TokenAfterIssue(s: State, op: Op, t: nat, c: Config)
    requires t < |s.db.tokens| && Issues(s, op, c) && TokensHaveUsers(s.db)
    ensures var after := Step(s, op, c).db.tokens;
            && t < |after| && after[t] == s.db.tokens[t].(revoked := after[t].revoked)
            && (!after[t].consumed ==> (after[t].revoked
                  <==> s.db.tokens[t].revoked || IssuesFor(s, op, s.db.tokens[t].user, s.db.tokens[t].purpose, c)))
  {
    if op.Provision? {
      SupersedeRevokes(s.db.tokens, |s.db.users|, ACTIVATE_ACCOUNT, t);
    } else {
      SupersedeRevokes(s.db.tokens, TaskOf(s, op).user, TaskOf(s, op).purpose, t);
    }
  }

  /** Every token belongs to a user. */
  ghost predicate TokensHaveUsers(db: Db) {
    forall i :: 0 <= i < |db.tokens| ==> db.tokens[i].user < |db.users|
  }

  lemma TaskKeepsUsers(s: State, op: Op, c: Config)
    requires TokensHaveUsers(s.db) && Performed(s, op, c).Some?
    ensures TokensHaveUsers(Performed(s, op, c).value.0)
  {
  }

  lemma StepKeepsUsers(s: State, op: Op, c: Config)
    requires TokensHaveUsers(s.db)
    ensures TokensHaveUsers(Step(s, op, c).db)
  {
    if !op.Lookup? && !Commits(s, op) && Performed(s, op, c).Some? {
      TaskKeepsUsers(s, op, c);
    }
  }

  lemma {:induction false} EveryTokenHasAUser(ops: seq<Op>, c: Config)
    ensures TokensHaveUsers(Run(START, ops, c).db)
  {
    if ops != [] {
      EveryTokenHasAUser(ops[..|ops| - 1], c);
      StepKeepsUsers(Run(START, ops[..|ops| - 1], c), ops[|ops| - 1], c);
    }
  }

  /** A token keeps its row but for two marks: only committing a claim to it consumes it, and
      only issuing revokes it. */
  lemma TokenAfter(s: State, op: Op, t: nat, c: Config)
    requires t < |s.db.tokens| && TokensHaveUsers(s.db)
    ensures var after := Step(s, op, c).db.tokens;
            && t < |after|
            && after[t] == s.db.tokens[t].(consumed := after[t].consumed, revoked := after[t].revoked)
            && (after[t].consumed <==> s.db.tokens[t].consumed || (Commits(s, op) && s.claims[op.claim].token == t))
            && (!after[t].consumed ==> (after[t].revoked
                  <==> s.db.tokens[t].revoked || IssuesFor(s, op, s.db.tokens[t].user, s.db.tokens[t].purpose, c)))
  {
    if Issues(s, op, c) {
      TokenAfterIssue(s, op, t, c);
    } else if !Commits(s, op) {
      OtherwiseSameTokens(s, op, c);
    }
  }

  lemma ClaimsAfter(s: State, op: Op, c: Config)
    ensures |s.claims| <= |Step(s, op, c).claims| && Step(s, op, c).claims[..|s.claims|] == s.claims
    ensures |Step(s, op, c).claims| > |s.claims| ==>
              && op.Lookup? && Step(s, op, c).db == s.db && |Step(s, op, c).claims| == |s.claims| + 1
              && LookedUp(s.db, op.secret, op.purpose, op.password, op.now, c)
                 == Some(Step(s, op, c).claims[|s.claims|].token)
  {
  }

  lemma {:induction false} NothingSinceTheFuture(ops: seq<Op>, k: nat, user: nat, purpose: Purpose, c: Config)
    requires |Run(START, ops, c).claims| <= k
    ensures !IssuedSince(ops, k, user, purpose, c)
  {
    if ops != [] {
      var front := ops[..|ops| - 1];
      ClaimsAfter(Run(START, front, c), ops[|ops| - 1], c);
      NothingSinceTheFuture(front, k, user, purpose, c);
    }
  }

  lemma ClaimedTokenExists(ops: seq<Op>, k: nat, c: Config)
    requires k < |Run(START, ops, c).claims|
    ensures Run(START, ops, c).claims[k].token < |Run(START, ops, c).db.tokens|
  {
    EveryRunIsSound(ops, c);
    assert Run(START, ops, c).claims[k] in Run(START, ops, c).claims;
  }

  /** In every run, a token that was looked up and not consumed has been revoked exactly when one
      was issued to its user for its purpose since it was looked up. */
  lemma {:induction false} RevokedIffIssuedSince(ops: seq<Op>, k: nat, c: Config)
    requires k < |Run(START, ops, c).claims|
    ensures var s := Run(START, ops, c);
            && s.claims[k].token < |s.db.tokens|
            && (!s.db.tokens[s.claims[k].token].consumed ==>
                  var token := s.db.tokens[s.claims[k].token];
                  token.revoked <==> IssuedSince(ops, k, token.user, token.purpose, c))
  {
    if ops != [] {
      var front, last := ops[..|ops| - 1], ops[|ops| - 1];
      var s := Run(START, front, c);
      ClaimedTokenExists(ops, k, c);
      ClaimsAfter(s, last, c);
      EveryTokenHasAUser(front, c);
      if k < |s.claims| {
        RevokedIffIssuedSince(front, k, c);
        TokenAfter(s, last, s.claims[k].token, c);
      } else {
        var token := s.db.tokens[Run(START, ops, c).claims[k].token];
        NothingSinceTheFuture(front, k, token.user, token.purpose, c);
      }
    }
  }

  // ----- expiry -----

  /** The time token `t` was issued at. */
  function IssuedAt(ops: seq<Op>, t: nat, c: Config): int {
    if ops == [] then 0
    else
      var front, last := ops[..|ops| - 1], ops[|ops| - 1];
      if t < |Run(START, front, c).db.tokens| then IssuedAt(front, t, c)
      else if last.Provision? || last.ResetByAdmin? then last.now
      else 0
  }

  /** The time claim `k` was looked up at. */
  function FoundAt(ops: seq<Op>, k: nat, c: Config): int {
    if ops == [] then 0
    else
      var front, last := ops[..|ops| - 1], ops[|ops| - 1];
      if k < |Run(START, front, c).claims| then FoundAt(front, k, c)
      else if last.Lookup? then last.now
      else 0
  }

  lemma NewTokenExpires(s: State, op: Op, t: nat, c: Config)
    requires |s.db.tokens| <= t < |Step(s, op, c).db.tokens|
    ensures op.Provision? || op.ResetByAdmin?
    ensures Step(s, op, c).db.tokens[t].expires == op.now + Ttl(Step(s, op, c).db.tokens[t].purpose, c)
  {
  }

  lemma {:induction false} ExpiresAfterItsTime(ops: seq<Op>, t: nat, c: Config)
    requires t < |Run(START, ops, c).db.tokens|
    ensures Run(START, ops, c).db.tokens[t].expires
         == IssuedAt(ops, t, c) + Ttl(Run(START, ops, c).db.tokens[t].purpose, c)
  {
    if ops != [] {
      var front, last := ops[..|ops| - 1], ops[|ops| - 1];
      var s := Run(START, front, c);
      if t < |s.db.tokens| {
        ExpiresAfterItsTime(front, t, c);
        EveryTokenHasAUser(front, c);
        TokenAfter(s, last, t, c);
      } else {
        NewTokenExpires(s, last, t, c);
      }
    }
  }

  /** A token was unexpired when it was looked up. */
  lemma {:induction false} FoundBeforeExpiry(ops: seq<Op>, k: nat, c: Config)
    requires k < |Run(START, ops, c).claims|
    ensures var s := Run(START, ops, c);
            s.claims[k].token < |s.db.tokens| && FoundAt(ops, k, c) < s.db.tokens[s.claims[k].token].expires
  {
    if ops != [] {
      var front, last := ops[..|ops| - 1], ops[|ops| - 1];
      var s := Run(START, front, c);
      ClaimedTokenExists(ops, k, c);
      ClaimsAfter(s, last, c);
      if k < |s.claims| {
        FoundBeforeExpiry(front, k, c);
        EveryTokenHasAUser(front, c);
        TokenAfter(s, last, s.claims[k].token, c);
      }
    }
  }

  /** In every run, a token that is consumed at `now` is still unrevoked exactly when none was
      issued to its user for its purpose since it was looked up, and still unexpired exactly when
      its time since it was issued has not run out; it was not consumed before. */
  lemma ConsumedTokenIsCurrentIff(ops: seq<Op>, k: nat, now: int, c: Config)
    requires Commits(Run(START, ops, c), Consume(k, now))
    ensures var s := Run(START, ops, c);
            var t := s.claims[k].token;
            && t < |s.db.tokens| && !s.db.tokens[t].consumed
            && (s.db.tokens[t].revoked <==> IssuedSince(ops, k, s.db.tokens[t].user, s.claims[k].purpose, c))
            && (now < s.db.tokens[t].expires <==> now < IssuedAt(ops, t, c) + Ttl(s.claims[k].purpose, c))
            && FoundAt(ops, k, c) < s.db.tokens[t].expires
  {
    var s := Run(START, ops, c);
    EveryRunIsSound(ops, c);
    assert s.claims[k] in s.claims;
    RevokedIffIssuedSince(ops, k, c);
    ExpiresAfterItsTime(ops, s.claims[k].token, c);
    FoundBeforeExpiry(ops, k, c);
  }

  /** In every run, consuming a claimed token commits exactly when the token was not consumed
      and the status of its user fits: neither supersession nor expiry is looked at again. */
  lemma CommitsIff(ops: seq<Op>, k: nat, now: int, c: Config)
    requires k < |Run(START, ops, c).claims|
    ensures var s := Run(START, ops, c);
            var claim := s.claims[k];
            && claim.token < |s.db.tokens| && s.db.tokens[claim.token].user < |s.db.users|
            && (Commits(s, Consume(k, now))
                <==> && !s.db.tokens[claim.token].consumed
                     && (s.db.users[s.db.tokens[claim.token].user].status.ACTIVE? <==> claim.purpose.RESET_PASSWORD?))
  {
    ClaimedTokenExists(ops, k, c);
    EveryTokenHasAUser(ops, c);
  }
}
