/** Runs from the empty tables into the cases on which the identity theorems turn. */
module IdentityRuns {
  import opened Options
  import opened Identity
  import opened IdentityLaws
  import opened IdentityResets
  import opened IdentityUnlock
  import opened IdentityPasswords
  import Seqs

  lemma RunMore(s: State, ops: seq<Op>, op: Op, c: Config)
    ensures Run(s, ops + [op], c) == Step(Run(s, ops, c), op, c)
  {
    Seqs.DropLast(ops, op);
  }

  lemma NothingHappened(s: State, c: Config)
    ensures Run(s, [], c) == s
  {
  }

  /** What the runs use: a password and secrets that are accepted and differ, and tokens and
      sessions that live. */
  ghost predicate Usable(c: Config, secret: string, later: string, password: string) {
    && PasswordAllowed(password, c) && 0 < |secret| <= 256 && 0 < |later| <= 256 && secret != later
    && c.activationTtl > 0 && c.resetTtl > 0 && c.idle > 0 && c.absolute > 0
  }

  /** A new user with the activation token issued at time 0. */
  function NewUser(name: string, secret: string, c: Config): State {
    State(Db([User(name, PENDING, VALID, None)], [],
             [Token(0, ACTIVATE_ACCOUNT, secret, c.activationTtl, false, false)]), [], [], [])
  }

  lemma UserIsProvisioned(name: string, secret: string, c: Config)
    ensures Run(START, [Provision(name, secret, 0)], c) == NewUser(name, secret, c)
  {
    NothingHappened(START, c);
    RunMore(START, [], Provision(name, secret, 0), c);
  }

  /** The user after activation. */
  function ActiveUser(name: string, secret: string, password: string, c: Config): State {
    var claim := Claim(0, ACTIVATE_ACCOUNT, password);
    State(Db([User(name, ACTIVE, VALID, Some(password))], [],
             [Token(0, ACTIVATE_ACCOUNT, secret, c.activationTtl, true, false)]), [claim], [claim], [])
  }

  lemma ActivationStep(name: string, secret: string, password: string, s: State, found: State, c: Config)
    requires s == NewUser(name, secret, c) && found == s.(claims := [Claim(0, ACTIVATE_ACCOUNT, password)])
    ensures Step(found, Consume(0, 0), c) == ActiveUser(name, secret, password, c)
  {
  }

  lemma FirstLookup(name: string, secret: string, password: string, later: string, s: State, c: Config)
    requires s.db == NewUser(name, secret, c).db && s.claims == [] && Usable(c, secret, later, password)
    ensures Step(s, Lookup(secret, ACTIVATE_ACCOUNT, password, 0), c)
         == s.(claims := [Claim(0, ACTIVATE_ACCOUNT, password)])
  {
  }

  function Activation(name: string, secret: string, password: string): seq<Op> {
    [Provision(name, secret, 0)] + [Lookup(secret, ACTIVATE_ACCOUNT, password, 0)] + [Consume(0, 0)]
  }

  lemma UserIsActivated(name: string, secret: string, password: string, later: string, c: Config)
    requires Usable(c, secret, later, password)
    ensures Run(START, Activation(name, secret, password), c) == ActiveUser(name, secret, password, c)
  {
    var look, s := Lookup(secret, ACTIVATE_ACCOUNT, password, 0), NewUser(name, secret, c);
    UserIsProvisioned(name, secret, c);
    RunMore(START, [Provision(name, secret, 0)], look, c);
    FirstLookup(name, secret, password, later, s, c);
    RunMore(START, [Provision(name, secret, 0)] + [look], Consume(0, 0), c);
    ActivationStep(name, secret, password, s, Step(s, look, c), c);
  }

  // ----- a login under way at a reset -----

  lemma CheckedThenFound(name: string, secret: string, password: string, s: State, c: Config)
    requires s == ActiveUser(name, secret, password, c)
    ensures Step(Step(s, Check(name, password), c), FindForReset(name), c)
         == s.(tasks := [Enter(0)] + [Reset(0, RESET_PASSWORD)])
  {
    assert Step(s, Check(name, password), c) == s.(tasks := [Enter(0)]);
  }

  /** A login can be between its checks and its session when a reset is made, and the session it
      then opens was opened too late. */
  lemma PendingLoginIsReached(name: string, secret: string, password: string, later: string, cookie: string, c: Config)
      returns (ops: seq<Op>, s: State, reset: Op)
    requires Usable(c, secret, later, password)
    ensures s == Run(START, ops, c) && Resets(s, reset, 0, c) && LoginsOf(s.tasks, 0) > 0
    ensures !AlwaysSafe(ops + [reset] + [Open(0, cookie, 0)], c)
  {
    var first, active := Activation(name, secret, password), ActiveUser(name, secret, password, c);
    reset := ResetByAdmin(1, later, 0);
    UserIsActivated(name, secret, password, later, c);
    RunMore(START, first, Check(name, password), c);
    RunMore(START, first + [Check(name, password)], FindForReset(name), c);
    CheckedThenFound(name, secret, password, active, c);
    ops := first + [Check(name, password)] + [FindForReset(name)];
    s := Run(START, ops, c);
    LoginAmong(s.tasks, 0);
    ResetIsPossible(s, reset, c);
    RunMore(START, ops, reset, c);
    LateOpening(s, reset, Open(0, cookie, 0), c);
    Seqs.DropLast(ops + [reset], Open(0, cookie, 0));
    EveryRunIsSafeIff(ops + [reset] + [Open(0, cookie, 0)], c);
  }

  lemma ResetIsPossible(s: State, op: Op, c: Config)
    requires op.ResetByAdmin? && op.task < |s.tasks| && s.tasks[op.task] == Reset(0, RESET_PASSWORD)
    requires |s.db.users| == 1 && FindToken(s.db.tokens, op.secret) < 0
    ensures Resets(s, op, 0, c)
  {
  }

  lemma LateOpening(s: State, reset: Op, open: Op, c: Config)
    requires Resets(s, reset, 0, c) && s.tasks == [Enter(0)] + [Reset(0, RESET_PASSWORD)]
    requires reset.task == 1 && open.Open? && open.task == 0 && s.db.sessions == [] && |s.db.users| == 1
    ensures var after := Step(s, reset, c); Opens(after, open, c) && !Settled(after, TaskOf(after, open).user)
  {
    assert Step(s, reset, c).tasks == [Enter(0)] + [Done];
  }

  // ----- old tokens at a reset -----

  /** What disables a user who never activated the account, and then reads it for a reset. */
  function Disabling(name: string): seq<Op> {
    [Manage(name, false)] + [Apply(0)] + [FindForReset(name)]
  }

  function DisabledUser(name: string, secret: string, claims: seq<Claim>, c: Config): State {
    State(NewUser(name, secret, c).db.(users := [User(name, DISABLED, VALID, None)]), claims, [],
          [Revoke(0)] + [Reset(0, RESET_PASSWORD)])
  }

  lemma DisablingSteps(name: string, secret: string, claims: seq<Claim>, s: State, c: Config)
    requires s == NewUser(name, secret, c).(claims := claims)
    ensures Step(Step(Step(s, Manage(name, false), c), Apply(0), c), FindForReset(name), c)
         == DisabledUser(name, secret, claims, c)
  {
    var planned := Step(s, Manage(name, false), c);
    assert planned == s.(tasks := [Disable(0)]);
    assert Step(planned, Apply(0), c).tasks == [Revoke(0)];
  }

  lemma UserIsDisabled(ops: seq<Op>, name: string, secret: string, claims: seq<Claim>, c: Config)
    requires Run(START, ops, c) == NewUser(name, secret, c).(claims := claims)
    ensures Run(START, ops + Disabling(name), c) == DisabledUser(name, secret, claims, c)
  {
    RunMore(START, ops, Manage(name, false), c);
    RunMore(START, ops + [Manage(name, false)], Apply(0), c);
    RunMore(START, ops + [Manage(name, false)] + [Apply(0)], FindForReset(name), c);
    assert ops + Disabling(name) == ops + [Manage(name, false)] + [Apply(0)] + [FindForReset(name)];
    DisablingSteps(name, secret, claims, Run(START, ops, c), c);
  }

  /** A disabled user can have an activation token left at a reset that no client looked up. */
  lemma ActivationTokenIsLeft(name: string, secret: string, password: string, later: string, c: Config)
      returns (ops: seq<Op>, s: State, reset: Op)
    requires Usable(c, secret, later, password)
    ensures s == Run(START, ops, c) && Resets(s, reset, 0, c)
    ensures ActivationIsLeft(s.db.tokens, 0, 0) && !Outstanding(s, 0)
  {
    ops := [Provision(name, secret, 0)] + Disabling(name);
    s, reset := Run(START, ops, c), ResetByAdmin(1, later, 0);
    UserIsProvisioned(name, secret, c);
    UserIsDisabled([Provision(name, secret, 0)], name, secret, [], c);
    ResetIsPossible(s, reset, c);
    assert !Dead(s.db.tokens[0], 0);
  }

  /** And a client can have looked it up before it expired. */
  lemma ClaimIsOutstanding(name: string, secret: string, password: string, later: string, c: Config)
      returns (ops: seq<Op>, s: State, reset: Op)
    requires Usable(c, secret, later, password)
    ensures s == Run(START, ops, c) && Resets(s, reset, 0, c)
    ensures Outstanding(s, 0) && !ActivationIsLeft(s.db.tokens, 0, c.activationTtl)
  {
    var look, claim := Lookup(secret, ACTIVATE_ACCOUNT, password, 0), Claim(0, ACTIVATE_ACCOUNT, password);
    var first := [Provision(name, secret, 0)] + [look];
    ops := first + Disabling(name);
    s, reset := Run(START, ops, c), ResetByAdmin(1, later, 0);
    UserIsProvisioned(name, secret, c);
    RunMore(START, [Provision(name, secret, 0)], look, c);
    FirstLookup(name, secret, password, later, NewUser(name, secret, c), c);
    UserIsDisabled(first, name, secret, [claim], c);
    ResetIsPossible(s, reset, c);
    assert claim in s.claims;
  }

  // ----- a change of password under way at a reset -----

  /** An active user with one session and a change of password that has passed its check. */
  function ChangingUser(name: string, secret: string, password: string, other: string, cookie: string, c: Config): State
  {
    var s := ActiveUser(name, secret, password, c);
    s.(db := s.db.(sessions := [Session(0, cookie, c.idle, c.absolute, false)]), tasks := [Done] + [Renew(0, 0, other)])
  }

  lemma LoginSteps(name: string, secret: string, password: string, cookie: string, s: State, c: Config)
    requires s == ActiveUser(name, secret, password, c)
    ensures Step(Step(s, Check(name, password), c), Open(0, cookie, 0), c)
         == s.(db := s.db.(sessions := [Session(0, cookie, c.idle, c.absolute, false)]), tasks := [Done])
  {
    assert Step(s, Check(name, password), c) == s.(tasks := [Enter(0)]);
  }

  lemma ChangeSteps(s: State, cookie: string, password: string, other: string, c: Config)
    requires s.db.sessions == [Session(0, cookie, c.idle, c.absolute, false)] && s.tasks == [Done]
    requires 0 < |cookie| <= 256 && c.idle > 0 && c.absolute > 0 && PasswordAllowed(other, c)
    requires |s.db.users| == 1 && s.db.users[0].status.ACTIVE? && s.db.users[0].password == Some(password)
    ensures Step(Step(s, BeginChange(cookie, 0), c), CheckChange(1, password, other), c)
         == s.(tasks := [Done] + [Renew(0, 0, other)])
  {
    var begun := Step(s, BeginChange(cookie, 0), c);
    assert ValidSession(s.db, cookie, 0) == 0;
    assert begun == s.(tasks := [Done] + [Verify(0, 0)]);
  }

  lemma ChangeIsPending(name: string, secret: string, password: string, other: string, cookie: string, later: string,
                        c: Config) returns (ops: seq<Op>)
    requires Usable(c, secret, later, password) && PasswordAllowed(other, c) && 0 < |cookie| <= 256
    ensures Run(START, ops, c) == ChangingUser(name, secret, password, other, cookie, c)
  {
    var first, active := Activation(name, secret, password), ActiveUser(name, secret, password, c);
    var entering := first + [Check(name, password)];
    var entered := entering + [Open(0, cookie, 0)];
    UserIsActivated(name, secret, password, later, c);
    RunMore(START, first, Check(name, password), c);
    RunMore(START, entering, Open(0, cookie, 0), c);
    LoginSteps(name, secret, password, cookie, active, c);
    RunMore(START, entered, BeginChange(cookie, 0), c);
    RunMore(START, entered + [BeginChange(cookie, 0)], CheckChange(1, password, other), c);
    ChangeSteps(Run(START, entered, c), cookie, password, other, c);
    ops := entered + [BeginChange(cookie, 0)] + [CheckChange(1, password, other)];
  }

  /** The state `s` after a reset by the admin, with the new token looked up. */
  function AfterReset(s: State, later: string, renewed: string, c: Config): State
    requires |s.db.users| == 1
  {
    State(Db([s.db.users[0].(credential := RESET_REQUIRED)], RevokeAll(s.db.sessions, 0, -1),
             Issued(s.db.tokens, 0, RESET_PASSWORD, later, 0, c)),
          s.claims + [Claim(1, RESET_PASSWORD, renewed)], s.commits, s.tasks + [Done])
  }

  lemma ResetSteps(s: State, name: string, later: string, renewed: string, c: Config)
    requires |s.db.users| == 1 && s.db.users[0].name == name && s.db.users[0].status.ACTIVE? && |s.tasks| == 2
    requires |s.db.tokens| == 1 && s.db.tokens[0].secret != later && 0 < |later| <= 256
    requires c.resetTtl > 0 && PasswordAllowed(renewed, c)
    ensures Step(Step(Step(s, FindForReset(name), c), ResetByAdmin(2, later, 0), c),
                 Lookup(later, RESET_PASSWORD, renewed, 0), c)
         == AfterReset(s, later, renewed, c)
  {
    var found := Step(s, FindForReset(name), c);
    assert found == s.(tasks := s.tasks + [Reset(0, RESET_PASSWORD)]);
    var reset := Step(found, ResetByAdmin(2, later, 0), c);
    assert FindToken(s.db.tokens, later) < 0;
    assert reset.tasks == s.tasks + [Done];
    assert reset.db.tokens[1] == Token(0, RESET_PASSWORD, later, c.resetTtl, false, false);
  }

  lemma ConsumeThenApply(s: State, other: string, c: Config)
    requires |s.db.users| == 1 && s.db.users[0].status.ACTIVE? && |s.db.tokens| == 2 && |s.claims| == 2
    requires s.claims[1].token == 1 && s.claims[1].purpose.RESET_PASSWORD? && !s.db.tokens[1].consumed
    requires s.db.tokens[1].user == 0 && |s.tasks| > 1 && s.tasks[1] == Renew(0, 0, other)
    ensures Commits(s, Consume(1, 0))
    ensures Step(Step(s, Consume(1, 0), c), Apply(1), c).db.users
         == [s.db.users[0].(credential := VALID, password := Some(other))]
  {
  }

  /** A change of password that passed its check before a reset by the admin can be made after the
      reset token was consumed: the account is usable again with the password of the change. */
  lemma StaleChangeReplaces(name: string, secret: string, password: string, other: string, renewed: string,
                            cookie: string, later: string, c: Config)
      returns (ops: seq<Op>, s: State)
    requires Usable(c, secret, later, password) && PasswordAllowed(other, c) && PasswordAllowed(renewed, c)
    requires 0 < |cookie| <= 256 && other != renewed
    ensures s == Run(START, ops, c) && Locked(s.db, 0) && Commits(s, Consume(1, 0))
    ensures s.claims[1].password == renewed && OtherChangePending(s.tasks, 0, renewed)
    ensures Run(START, ops + [Consume(1, 0)] + [Apply(1)], c).db.users == [User(name, ACTIVE, VALID, Some(other))]
  {
    var first := ChangeIsPending(name, secret, password, other, cookie, later, c);
    var changing := Run(START, first, c);
    var found := first + [FindForReset(name)];
    var reset := found + [ResetByAdmin(2, later, 0)];
    RunMore(START, first, FindForReset(name), c);
    RunMore(START, found, ResetByAdmin(2, later, 0), c);
    RunMore(START, reset, Lookup(later, RESET_PASSWORD, renewed, 0), c);
    ResetSteps(changing, name, later, renewed, c);
    ops := reset + [Lookup(later, RESET_PASSWORD, renewed, 0)];
    s := Run(START, ops, c);
    assert s == AfterReset(changing, later, renewed, c);
    assert s.tasks[1] == Renew(0, 0, other) && s.tasks[1] in s.tasks;
    ConsumeThenApply(s, other, c);
    RunMore(START, ops, Consume(1, 0), c);
    RunMore(START, ops + [Consume(1, 0)], Apply(1), c);
  }
}
