/** What the tables of a run hold, read off its operations: src/zglab_rag/auth/identity.py,
    session.py and repositories.py. */
module IdentityHistory {
  import opened Options
  import opened Identity
  import opened IdentityLaws
  import opened IdentityTokens
  import opened IdentityResets
  import opened IdentitySessions

  // ----- a secret belongs to one row -----

  ghost predicate SessionSecretsDiffer(sessions: seq<Session>) {
    forall i, j :: 0 <= i < j < |sessions| ==> sessions[i].secret != sessions[j].secret
  }

  ghost predicate TokenSecretsDiffer(tokens: seq<Token>) {
    forall i, j :: 0 <= i < j < |tokens| ==> tokens[i].secret != tokens[j].secret
  }

  lemma {:induction false} SessionNotFound(sessions: seq<Session>, secret: string)
    ensures FindSession(sessions, secret) < 0 <==> forall i :: 0 <= i < |sessions| ==> sessions[i].secret != secret
  {
    if sessions != [] {
      SessionNotFound(sessions[..|sessions| - 1], secret);
    }
  }

  lemma {:induction false} TokenNotFound(tokens: seq<Token>, secret: string)
    ensures FindToken(tokens, secret) < 0 <==> forall i :: 0 <= i < |tokens| ==> tokens[i].secret != secret
  {
    if tokens != [] {
      TokenNotFound(tokens[..|tokens| - 1], secret);
    }
  }

  lemma SessionSecretsAfter(s: State, op: Op, c: Config)
    ensures var after := Step(s, op, c).db.sessions;
            && |s.db.sessions| <= |after| <= |s.db.sessions| + 1
            && (forall i :: 0 <= i < |s.db.sessions| ==> after[i].secret == s.db.sessions[i].secret)
            && (|after| > |s.db.sessions| ==> FindSession(s.db.sessions, after[|s.db.sessions|].secret) < 0)
  {
  }

  lemma TokenSecretsAfter(s: State, op: Op, c: Config)
    ensures var after := Step(s, op, c).db.tokens;
            && |s.db.tokens| <= |after| <= |s.db.tokens| + 1
            && (forall i :: 0 <= i < |s.db.tokens| ==> after[i].secret == s.db.tokens[i].secret)
            && (|after| > |s.db.tokens| ==> FindToken(s.db.tokens, after[|s.db.tokens|].secret) < 0)
  {
  }

  lemma StepKeepsSessionSecrets(s: State, op: Op, c: Config)
    requires SessionSecretsDiffer(s.db.sessions)
    ensures SessionSecretsDiffer(Step(s, op, c).db.sessions)
  {
    var after := Step(s, op, c).db.sessions;
    SessionSecretsAfter(s, op, c);
    if |after| > |s.db.sessions| {
      SessionNotFound(s.db.sessions, after[|s.db.sessions|].secret);
    }
  }

  lemma StepKeepsTokenSecrets(s: State, op: Op, c: Config)
    requires TokenSecretsDiffer(s.db.tokens)
    ensures TokenSecretsDiffer(Step(s, op, c).db.tokens)
  {
    var after := Step(s, op, c).db.tokens;
    TokenSecretsAfter(s, op, c);
    if |after| > |s.db.tokens| {
      TokenNotFound(s.db.tokens, after[|s.db.tokens|].secret);
    }
  }

  lemma {:induction false} SecretsDiffer(ops: seq<Op>, c: Config)
    ensures SessionSecretsDiffer(Run(START, ops, c).db.sessions) && TokenSecretsDiffer(Run(START, ops, c).db.tokens)
  {
    if ops != [] {
      SecretsDiffer(ops[..|ops| - 1], c);
      StepKeepsSessionSecrets(Run(START, ops[..|ops| - 1], c), ops[|ops| - 1], c);
      StepKeepsTokenSecrets(Run(START, ops[..|ops| - 1], c), ops[|ops| - 1], c);
    }
  }

  /** In every run a user's name, a session's secret and a token's secret find their own row. */
  lemma EveryRowIsFound(ops: seq<Op>, i: nat, c: Config)
    ensures var db := Run(START, ops, c).db;
            && (i < |db.users| ==> FindUser(db.users, db.users[i].name) == i)
            && (i < |db.sessions| ==> FindSession(db.sessions, db.sessions[i].secret) == i)
            && (i < |db.tokens| ==> FindToken(db.tokens, db.tokens[i].secret) == i)
  {
    var db := Run(START, ops, c).db;
    EveryRunFits(ops, c);
    SecretsDiffer(ops, c);
    if i < |db.users| {
      FoundByName(db.users, i);
    }
    if i < |db.sessions| {
      SessionNotFound(db.sessions, db.sessions[i].secret);
    }
    if i < |db.tokens| {
      TokenNotFound(db.tokens, db.tokens[i].secret);
    }
  }

  // ----- users -----

  /** The operation consumes a token of the user for this purpose. */
  predicate Spends(s: State, op: Op, u: nat, purpose: Purpose) {
    && Commits(s, op) && s.claims[op.claim].purpose == purpose
    && s.claims[op.claim].token < |s.db.tokens| && s.db.tokens[s.claims[op.claim].token].user == u
  }

  /** The operation makes a change of the user's password. */
  predicate Renews(s: State, op: Op, u: nat) {
    op.Apply? && TaskOf(s, op).Renew? && TaskOf(s, op).user == u
  }

  /** The operation resets the user for this purpose: the new token's secret must be new. */
  predicate Resets(s: State, op: Op, u: nat, purpose: Purpose) {
    op.ResetByAdmin? && TaskOf(s, op) == Reset(u, purpose) && u < |s.db.users|
    && forall t :: 0 <= t < |s.db.tokens| ==> s.db.tokens[t].secret != op.secret
  }

  /** How an operation changes a user's row. */
  ghost predicate Changes(s: State, op: Op, u: nat, before: User, after: User) {
    var spends := Spends(s, op, u, ACTIVATE_ACCOUNT) || Spends(s, op, u, RESET_PASSWORD);
    && after.name == before.name
    && after.password == (if spends then Some(s.claims[op.claim].password)
                          else if Renews(s, op, u) then Some(TaskOf(s, op).password) else before.password)
    && after.status == (if Spends(s, op, u, ACTIVATE_ACCOUNT) || (op.Apply? && TaskOf(s, op) == Enable(u)) then ACTIVE
                        else if op.Apply? && TaskOf(s, op) == Disable(u) then DISABLED else before.status)
    && after.credential == (if spends then VALID
                            else if Resets(s, op, u, RESET_PASSWORD) then RESET_REQUIRED else before.credential)
  }

  lemma UserAfterToken(s: State, op: Op, u: nat, c: Config)
    requires u < |s.db.users| && TokensHaveUsers(s.db) && Commits(s, op)
    ensures u < |Step(s, op, c).db.users| && Changes(s, op, u, s.db.users[u], Step(s, op, c).db.users[u])
  {
  }

  lemma ChangedByTask(s: State, op: Op, u: nat, c: Config)
    requires u < |s.db.users| && Performed(s, op, c).Some?
    ensures u < |Performed(s, op, c).value.0.users|
    ensures Changes(s, op, u, s.db.users[u], Performed(s, op, c).value.0.users[u])
  {
    if op.ResetByAdmin? {
      TokenNotFound(s.db.tokens, op.secret);
    }
  }

  lemma NoTaskNoChange(s: State, op: Op, u: nat, c: Config)
    requires u < |s.db.users| && Performed(s, op, c).None? && !Commits(s, op)
    ensures u < |Step(s, op, c).db.users| && Step(s, op, c).db.users[u] == s.db.users[u]
    ensures Changes(s, op, u, s.db.users[u], s.db.users[u])
  {
    if op.ResetByAdmin? {
      TokenNotFound(s.db.tokens, op.secret);
    }
  }

  /** A user's row is changed by these operations and in these ways only. */
  lemma UserAfterOp(s: State, op: Op, u: nat, c: Config)
    requires u < |s.db.users| && TokensHaveUsers(s.db)
    ensures u < |Step(s, op, c).db.users| && Changes(s, op, u, s.db.users[u], Step(s, op, c).db.users[u])
  {
    if Commits(s, op) {
      UserAfterToken(s, op, u, c);
    } else if Performed(s, op, c).Some? {
      ChangedByTask(s, op, u, c);
    } else {
      NoTaskNoChange(s, op, u, c);
    }
  }

  lemma NewUser(s: State, op: Op, u: nat, c: Config)
    requires |s.db.users| <= u < |Step(s, op, c).db.users|
    ensures var user := Step(s, op, c).db.users[u];
            op.Provision? && user == User(op.name, PENDING, VALID, None)
  {
    if !op.Provision? {
      OnlyProvisionAdds(s, op, c);
    }
  }

  /** The password that was last set for the user, by a token or by a change. */
  function PasswordOf(ops: seq<Op>, u: nat, c: Config): Option<string> {
    if ops == [] then None
    else
      var s, last := Run(START, ops[..|ops| - 1], c), ops[|ops| - 1];
      if u >= |s.db.users| then None
      else if Spends(s, last, u, ACTIVATE_ACCOUNT) || Spends(s, last, u, RESET_PASSWORD) then
        Some(s.claims[last.claim].password)
      else if Renews(s, last, u) then Some(TaskOf(s, last).password)
      else PasswordOf(ops[..|ops| - 1], u, c)
  }

  /** PENDING until a token activates the account; then as it was last enabled or disabled. */
  function StatusOf(ops: seq<Op>, u: nat, c: Config): Status {
    if ops == [] then PENDING
    else
      var s, last := Run(START, ops[..|ops| - 1], c), ops[|ops| - 1];
      if u >= |s.db.users| then PENDING
      else if Spends(s, last, u, ACTIVATE_ACCOUNT) || (last.Apply? && TaskOf(s, last) == Enable(u)) then ACTIVE
      else if last.Apply? && TaskOf(s, last) == Disable(u) then DISABLED
      else StatusOf(ops[..|ops| - 1], u, c)
  }

  /** Marked by a reset of the password and VALID again once a token is consumed. */
  function CredentialOf(ops: seq<Op>, u: nat, c: Config): Credential {
    if ops == [] then VALID
    else
      var s, last := Run(START, ops[..|ops| - 1], c), ops[|ops| - 1];
      if u >= |s.db.users| then VALID
      else if Spends(s, last, u, ACTIVATE_ACCOUNT) || Spends(s, last, u, RESET_PASSWORD) then VALID
      else if Resets(s, last, u, RESET_PASSWORD) then RESET_REQUIRED
      else CredentialOf(ops[..|ops| - 1], u, c)
  }

  ghost predicate AsRecorded(user: User, password: Option<string>, status: Status, credential: Credential) {
    user.password == password && user.status == status && user.credential == credential
  }

  /** In every run a user's row holds what the operations say. */
  lemma {:induction false} UsersAreAsRecorded(ops: seq<Op>, u: nat, c: Config)
    requires u < |Run(START, ops, c).db.users|
    ensures AsRecorded(Run(START, ops, c).db.users[u], PasswordOf(ops, u, c), StatusOf(ops, u, c),
                       CredentialOf(ops, u, c))
  {
    if ops != [] {
      var front, last := ops[..|ops| - 1], ops[|ops| - 1];
      var s := Run(START, front, c);
      if u < |s.db.users| {
        UsersAreAsRecorded(front, u, c);
        EveryTokenHasAUser(front, c);
        UserAfterOp(s, last, u, c);
      } else {
        NewUser(s, last, u, c);
      }
    }
  }

  /** In every run a login passes its checks exactly with the password last set for an ACTIVE user
      of this name whose credential is VALID. */
  lemma LoginIff(ops: seq<Op>, name: string, password: string, c: Config)
    ensures var db := Run(START, ops, c).db;
            Planned(db, Check(name, password), c).Some?
            <==> exists u :: 0 <= u < |db.users| && db.users[u].name == name
                   && PasswordOf(ops, u, c) == Some(password) && StatusOf(ops, u, c).ACTIVE?
                   && CredentialOf(ops, u, c).VALID?
  {
    var db := Run(START, ops, c).db;
    forall u | 0 <= u < |db.users|
      ensures AsRecorded(db.users[u], PasswordOf(ops, u, c), StatusOf(ops, u, c), CredentialOf(ops, u, c))
      ensures FindUser(db.users, db.users[u].name) == u
    {
      UsersAreAsRecorded(ops, u, c);
      EveryRowIsFound(ops, u, c);
    }
  }

  /** ... a check of a change of password passes exactly with the password last set and a new one of
      allowed length, */
  lemma ChangeIff(ops: seq<Op>, user: nat, current: string, password: string, c: Config)
    requires user < |Run(START, ops, c).db.users|
    ensures MayChange(Run(START, ops, c).db, user, current, password, c)
       <==> PasswordOf(ops, user, c) == Some(current) && c.minLength <= |password| && |password| <= c.maxLength
  {
    UsersAreAsRecorded(ops, user, c);
  }

  /** ... a user can be disabled at any time and enabled exactly when DISABLED, */
  lemma ManageIff(ops: seq<Op>, name: string, enabled: bool, c: Config)
    ensures var db := Run(START, ops, c).db;
            Planned(db, Manage(name, enabled), c).Some?
            <==> exists u :: 0 <= u < |db.users| && db.users[u].name == name
                   && (enabled ==> StatusOf(ops, u, c).DISABLED?)
  {
    var db := Run(START, ops, c).db;
    forall u | 0 <= u < |db.users|
      ensures AsRecorded(db.users[u], PasswordOf(ops, u, c), StatusOf(ops, u, c), CredentialOf(ops, u, c))
      ensures FindUser(db.users, db.users[u].name) == u
    {
      UsersAreAsRecorded(ops, u, c);
      EveryRowIsFound(ops, u, c);
    }
  }

  /** ... and a reset found for a user is for an activation exactly when the account has not been
      activated. */
  lemma ResetIsFor(ops: seq<Op>, u: nat, c: Config)
    requires u < |Run(START, ops, c).db.users|
    ensures var db := Run(START, ops, c).db;
            Planned(db, FindForReset(db.users[u].name), c)
            == Some(Reset(u, if StatusOf(ops, u, c).PENDING? then ACTIVATE_ACCOUNT else RESET_PASSWORD))
  {
    UsersAreAsRecorded(ops, u, c);
    EveryRowIsFound(ops, u, c);
  }

  // ----- sessions -----

  /** The operation ends session `i`: a logout with its secret while it is valid, a revocation of
      the sessions of its user by an administrator, after a disabling or by a reset, a password
      set with a token, or a change of password made from another session. */
  predicate Ends(s: State, op: Op, i: nat)
    requires i < |s.db.sessions|
  {
    var session := s.db.sessions[i];
    || (op.Logout? && op.secret == session.secret && 0 < |op.secret| <= 256
        && op.now < session.idleExpires && op.now < session.absoluteExpires)
    || (op.RevokeSessions? && session.user < |s.db.users| && s.db.users[session.user].name == op.name)
    || (op.Apply? && TaskOf(s, op) == Revoke(session.user))
    || Resets(s, op, session.user, ACTIVATE_ACCOUNT) || Resets(s, op, session.user, RESET_PASSWORD)
    || Spends(s, op, session.user, RESET_PASSWORD)
    || (Renews(s, op, session.user) && session.user < |s.db.users| && TaskOf(s, op).session != i)
  }

  lemma EndsByTask(s: State, op: Op, i: nat, c: Config)
    requires i < |s.db.sessions| && Performed(s, op, c).Some?
    ensures var after := Performed(s, op, c).value.0.sessions;
            i < |after| && (after[i].revoked <==> s.db.sessions[i].revoked || Ends(s, op, i))
  {
    if op.ResetByAdmin? {
      TokenNotFound(s.db.tokens, op.secret);
    }
  }

  lemma EndsByToken(s: State, op: Op, i: nat, c: Config)
    requires i < |s.db.sessions| && Commits(s, op) && TokensHaveUsers(s.db)
    ensures var after := Step(s, op, c).db.sessions;
            i < |after| && (after[i].revoked <==> s.db.sessions[i].revoked || Ends(s, op, i))
  {
  }

  lemma NoTaskNoEnd(s: State, op: Op, i: nat, c: Config)
    requires i < |s.db.sessions| && Performed(s, op, c).None? && !Commits(s, op)
    requires !op.Logout? && !op.RevokeSessions?
    ensures !Ends(s, op, i)
    ensures var after := Step(s, op, c).db.sessions;
            i < |after| && after[i].revoked == s.db.sessions[i].revoked
  {
    if op.ResetByAdmin? {
      TokenNotFound(s.db.tokens, op.secret);
    }
  }

  /** A session is revoked by these operations only. */
  lemma RevokedAfterOp(s: State, op: Op, i: nat, c: Config)
    requires i < |s.db.sessions| && TokensHaveUsers(s.db)
    requires NamesDiffer(s.db.users) && SessionSecretsDiffer(s.db.sessions)
    ensures var after := Step(s, op, c).db.sessions;
            i < |after| && (after[i].revoked <==> s.db.sessions[i].revoked || Ends(s, op, i))
  {
    if Commits(s, op) {
      EndsByToken(s, op, i, c);
    } else if Performed(s, op, c).Some? {
      EndsByTask(s, op, i, c);
    } else if op.Logout? {
      SessionNotFound(s.db.sessions, op.secret);
    } else if op.RevokeSessions? {
      if s.db.sessions[i].user < |s.db.users| {
        FoundByName(s.db.users, s.db.sessions[i].user);
      }
    } else {
      NoTaskNoEnd(s, op, i, c);
    }
  }

  /** Some operation since session `i` was opened ended it. */
  predicate EndedIn(ops: seq<Op>, i: nat, c: Config) {
    if ops == [] then false
    else
      var s, last := Run(START, ops[..|ops| - 1], c), ops[|ops| - 1];
      i < |s.db.sessions| && (EndedIn(ops[..|ops| - 1], i, c) || Ends(s, last, i))
  }

  lemma {:induction false} RevokedIffEnded(ops: seq<Op>, i: nat, c: Config)
    requires i < |Run(START, ops, c).db.sessions|
    ensures Run(START, ops, c).db.sessions[i].revoked <==> EndedIn(ops, i, c)
  {
    if ops != [] {
      var front, last := ops[..|ops| - 1], ops[|ops| - 1];
      var s := Run(START, front, c);
      if i < |s.db.sessions| {
        RevokedIffEnded(front, i, c);
        EveryTokenHasAUser(front, c);
        EveryRunFits(front, c);
        SecretsDiffer(front, c);
        RevokedAfterOp(s, last, i, c);
      } else {
        OnlyOpensAdd(s, last, c);
      }
    }
  }

  /** In every run a secret resolves at `now` exactly when it is of acceptable length and belongs to
      a session that nothing has ended, whose user is ACTIVE, and which was opened or last resolved
      less than the idle limit, and opened less than the absolute limit before. */
  lemma SecretResolvesIff(ops: seq<Op>, secret: string, now: int, c: Config)
    ensures var db := Run(START, ops, c).db;
            Resolved(db, secret, now, c).Some?
            <==> exists i :: 0 <= i < |db.sessions| && db.sessions[i].secret == secret && 0 < |secret| <= 256
                   && !EndedIn(ops, i, c)
                   && db.sessions[i].user < |db.users| && StatusOf(ops, db.sessions[i].user, c).ACTIVE?
                   && now < TouchedAt(ops, i, c) + c.idle && now < OpenedAt(ops, i, c) + c.absolute
  {
    var db := Run(START, ops, c).db;
    ResolvesIff(ops, secret, now, c);
    forall i | 0 <= i < |db.sessions|
      ensures db.sessions[i].revoked <==> EndedIn(ops, i, c)
      ensures FindSession(db.sessions, db.sessions[i].secret) == i
      ensures db.sessions[i].user < |db.users| ==>
        db.users[db.sessions[i].user].status == StatusOf(ops, db.sessions[i].user, c)
    {
      RevokedIffEnded(ops, i, c);
      EveryRowIsFound(ops, i, c);
      if db.sessions[i].user < |db.users| {
        UsersAreAsRecorded(ops, db.sessions[i].user, c);
      }
    }
  }

  // ----- tokens -----

  /** Token `t` has been consumed. */
  predicate SpentIn(ops: seq<Op>, t: nat, c: Config) {
    if ops == [] then false
    else
      var s, last := Run(START, ops[..|ops| - 1], c), ops[|ops| - 1];
      t < |s.db.tokens| && (SpentIn(ops[..|ops| - 1], t, c) || (Commits(s, last) && s.claims[last.claim].token == t))
  }

  /** Another token was issued to its user for its purpose after token `t`. */
  predicate SupersededIn(ops: seq<Op>, t: nat, c: Config) {
    if ops == [] then false
    else
      var s, last := Run(START, ops[..|ops| - 1], c), ops[|ops| - 1];
      && t < |s.db.tokens|
      && (SupersededIn(ops[..|ops| - 1], t, c)
          || IssuesFor(s, last, s.db.tokens[t].user, s.db.tokens[t].purpose, c))
  }

  lemma NewTokenIsLive(s: State, op: Op, t: nat, c: Config)
    requires |s.db.tokens| <= t < |Step(s, op, c).db.tokens|
    ensures !Step(s, op, c).db.tokens[t].consumed && !Step(s, op, c).db.tokens[t].revoked
  {
  }

  /** The marks of a token are what the operations say. */
  lemma {:induction false} TokensAreAsRecorded(ops: seq<Op>, t: nat, c: Config)
    requires t < |Run(START, ops, c).db.tokens|
    ensures var token := Run(START, ops, c).db.tokens[t];
            && (token.consumed <==> SpentIn(ops, t, c))
            && (!token.consumed ==> (token.revoked <==> SupersededIn(ops, t, c)))
  {
    if ops != [] {
      var front, last := ops[..|ops| - 1], ops[|ops| - 1];
      var s := Run(START, front, c);
      if t < |s.db.tokens| {
        TokensAreAsRecorded(front, t, c);
        EveryTokenHasAUser(front, c);
        TokenAfter(s, last, t, c);
      } else {
        NewTokenIsLive(s, last, t, c);
      }
    }
  }

  /** In every run a token is found for a password exactly when its secret is of acceptable length,
      the password of allowed length, the token of this purpose, not consumed, not superseded, and
      younger than its time to live. */
  lemma LookupIff(ops: seq<Op>, secret: string, purpose: Purpose, password: string, now: int, c: Config)
    ensures var db := Run(START, ops, c).db;
            LookedUp(db, secret, purpose, password, now, c).Some?
            <==> exists t :: 0 <= t < |db.tokens| && db.tokens[t].secret == secret && 0 < |secret| <= 256
                   && c.minLength <= |password| <= c.maxLength && db.tokens[t].purpose == purpose
                   && !SpentIn(ops, t, c) && !SupersededIn(ops, t, c)
                   && now < IssuedAt(ops, t, c) + if purpose.RESET_PASSWORD? then c.resetTtl else c.activationTtl
  {
    var db := Run(START, ops, c).db;
    forall t | 0 <= t < |db.tokens|
      ensures (db.tokens[t].consumed <==> SpentIn(ops, t, c))
              && (!db.tokens[t].consumed ==> (db.tokens[t].revoked <==> SupersededIn(ops, t, c)))
      ensures db.tokens[t].expires
           == IssuedAt(ops, t, c) + if db.tokens[t].purpose.RESET_PASSWORD? then c.resetTtl else c.activationTtl
      ensures FindToken(db.tokens, db.tokens[t].secret) == t
    {
      TokensAreAsRecorded(ops, t, c);
      ExpiresAfterItsTime(ops, t, c);
      EveryRowIsFound(ops, t, c);
    }
  }
}
