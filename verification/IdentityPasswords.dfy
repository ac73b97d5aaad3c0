/** The password of a user after a token was consumed, with changes of password under way. */
module IdentityPasswords {
  import opened Options
  import opened Identity
  import opened IdentityLaws
  import opened IdentityTokens
  import opened IdentityResets

  /** A change of the user's password to another one than `password` has passed its check. */
  ghost predicate OtherChangePending(tasks: seq<Task>, user: nat, password: string) {
    exists task :: task in tasks && task.Renew? && task.user == user && task.password != password
  }

  /** Nobody gives this password as the current one. */
  predicate NeverGiven(ops: seq<Op>, password: string) {
    forall i :: 0 <= i < |ops| && ops[i].CheckChange? ==> ops[i].current != password
  }

  /** The user's password is this one, and no change to another is pending. */
  ghost predicate HasPassword(s: State, user: nat, password: string) {
    && user < |s.db.users| && s.db.users[user].password == Some(password)
    && !OtherChangePending(s.tasks, user, password)
  }

  lemma StepKeepsPassword(s: State, op: Op, user: nat, password: string, c: Config)
    requires HasPassword(s, user, password) && !CommitsFor(s, op, user)
    requires op.CheckChange? ==> op.current != password
    ensures HasPassword(Step(s, op, c), user, password)
  {
    var after := Step(s, op, c);
    assert TaskOf(s, op) in s.tasks || TaskOf(s, op) == Done;
    PasswordAfter(s, op, user, password, c);
    forall task | task in after.tasks && task.Renew? && task.user == user ensures task.password == password {
      if task !in s.tasks {
        NewRenewal(s, op, task, c);
      }
    }
  }

  lemma PasswordAfter(s: State, op: Op, user: nat, password: string, c: Config)
    requires HasPassword(s, user, password) && !CommitsFor(s, op, user)
    requires TaskOf(s, op) in s.tasks || TaskOf(s, op) == Done
    ensures user < |Step(s, op, c).db.users| && Step(s, op, c).db.users[user].password == Some(password)
  {
  }

  lemma NewRenewal(s: State, op: Op, task: Task, c: Config)
    requires task in Step(s, op, c).tasks && task !in s.tasks && task.Renew?
    ensures op.CheckChange? && MayChange(s.db, task.user, op.current, task.password, c)
  {
  }

  lemma {:induction false} RunKeepsPassword(s: State, ops: seq<Op>, user: nat, password: string, c: Config)
    requires HasPassword(s, user, password) && TokensHaveUsers(s.db) && NeverGiven(ops, password)
    requires NoneConsumed(s.db.tokens, Run(s, ops, c).db.tokens, user)
    ensures HasPassword(Run(s, ops, c), user, password)
  {
    if ops != [] {
      var front, last := ops[..|ops| - 1], ops[|ops| - 1];
      var before := Run(s, front, c);
      RunKeepsUsers(s, front, c);
      NoneConsumedBefore(s.db.tokens, before, last, c, user);
      RunKeepsPassword(s, front, user, password, c);
      if CommitsFor(before, last, user) {
        ConsumedStays(s, front, before.claims[last.claim].token, c);
        assert false;
      }
      StepKeepsPassword(before, last, user, password, c);
    }
  }

  /** The user's password has become another, though no token of the user was consumed. */
  ghost predicate Replaced(start: State, end: State, user: nat, password: string) {
    && NoneConsumed(start.db.tokens, end.db.tokens, user)
    && user < |end.db.users| && end.db.users[user].password != Some(password)
  }

  lemma PendingChangeReplaces(s: State, user: nat, password: string, c: Config) returns (ops: seq<Op>)
    requires user < |s.db.users| && OtherChangePending(s.tasks, user, password)
    ensures NeverGiven(ops, password) && Replaced(s, Run(s, ops, c), user, password)
  {
    var task :| task in s.tasks && task.Renew? && task.user == user && task.password != password;
    var k :| 0 <= k < |s.tasks| && s.tasks[k] == task;
    ops := [Apply(k)];
    assert ops[..0] == [] && Run(s, [], c) == s;
    assert Run(s, ops, c) == Step(s, Apply(k), c);
  }

  lemma TokenSetsPassword(s: State, op: Op, user: nat, c: Config)
    requires Commits(s, op) && user == s.db.tokens[s.claims[op.claim].token].user
    ensures user < |s.db.users| && |Step(s, op, c).db.users| == |s.db.users|
    ensures Step(s, op, c).db.users[user].password == Some(s.claims[op.claim].password)
    ensures Step(s, op, c).tasks == s.tasks
  {
  }

  /** After a token of the user has been consumed, the password can come to be another than the one
      set with it, though nobody gives that one and no token of the user is consumed, exactly when
      a change to another password had passed its check before. */
  lemma PasswordAfterTokenIff(before: seq<Op>, s: State, op: Op, renewed: State, user: nat, password: string, c: Config)
    requires s == Run(START, before, c) && Commits(s, op) && renewed == Step(s, op, c)
    requires user == s.db.tokens[s.claims[op.claim].token].user && password == s.claims[op.claim].password
    ensures (exists after :: NeverGiven(after, password) && Replaced(renewed, Run(renewed, after, c), user, password))
        <==> OtherChangePending(s.tasks, user, password)
  {
    TokenSetsPassword(s, op, user, c);
    if OtherChangePending(s.tasks, user, password) {
      var after := PendingChangeReplaces(renewed, user, password, c);
    } else {
      EveryTokenHasAUser(before, c);
      StepKeepsUsers(s, op, c);
      forall after | NeverGiven(after, password) ensures !Replaced(renewed, Run(renewed, after, c), user, password) {
        if NoneConsumed(renewed.db.tokens, Run(renewed, after, c).db.tokens, user) {
          RunKeepsPassword(renewed, after, user, password, c);
        }
      }
    }
  }
}
