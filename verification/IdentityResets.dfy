/** After a reset by the admin: who can still open a session, and which tokens unlock the user. */
module IdentityResets {
  import opened Options
  import opened Identity
  import opened IdentityLaws
  import opened IdentityTokens
  import Seqs

  // ----- sessions and pending logins of a user -----

  /** How many sessions the user was ever given. */
  function SessionsOf(sessions: seq<Session>, user: nat): nat {
    if sessions == [] then 0
    else SessionsOf(sessions[..|sessions| - 1], user) + if sessions[|sessions| - 1].user == user then 1 else 0
  }

  /** How many logins of the user passed their checks and have not opened their session. */
  function LoginsOf(tasks: seq<Task>, user: nat): nat {
    if tasks == [] then 0
    else LoginsOf(tasks[..|tasks| - 1], user) + if tasks[|tasks| - 1] == Enter(user) then 1 else 0
  }

  /** Sessions the user has been or will be given for logins that passed their checks. */
  function Entries(s: State, user: nat): nat {
    SessionsOf(s.db.sessions, user) + LoginsOf(s.tasks, user)
  }

  lemma {:induction false} SameSessionsOf(a: seq<Session>, b: seq<Session>, user: nat)
    requires |a| == |b| && forall i :: 0 <= i < |a| ==> a[i].user == b[i].user
    ensures SessionsOf(a, user) == SessionsOf(b, user)
  {
    if a != [] {
      SameSessionsOf(a[..|a| - 1], b[..|b| - 1], user);
    }
  }

  /** Without more sessions of the user, none of the later sessions is theirs. */
  lemma {:induction false} NoMoreSessionsOf(a: seq<Session>, b: seq<Session>, user: nat)
    requires |a| <= |b| && forall i :: 0 <= i < |a| ==> a[i].user == b[i].user
    ensures SessionsOf(a, user) <= SessionsOf(b, user)
    ensures SessionsOf(a, user) == SessionsOf(b, user) ==> forall i :: |a| <= i < |b| ==> b[i].user != user
  {
    if |a| == |b| {
      SameSessionsOf(a, b, user);
    } else {
      NoMoreSessionsOf(a, b[..|b| - 1], user);
    }
  }

  /** A login is no longer pending once its task has become another. */
  lemma {:induction false} LoginDone(tasks: seq<Task>, k: nat, next: Task, user: nat)
    requires k < |tasks| && !next.Enter?
    ensures LoginsOf(tasks, user) == LoginsOf(tasks[k := next], user) + if tasks[k] == Enter(user) then 1 else 0
  {
    var n := |tasks| - 1;
    if k < n {
      assert tasks[k := next][..n] == tasks[..n][k := next];
      LoginDone(tasks[..n], k, next, user);
    } else {
      assert tasks[k := next][..n] == tasks[..n];
    }
  }

  lemma {:induction false} LoginAmong(tasks: seq<Task>, user: nat)
    ensures LoginsOf(tasks, user) > 0 <==> Enter(user) in tasks
  {
    if tasks != [] {
      LoginAmong(tasks[..|tasks| - 1], user);
      assert tasks == tasks[..|tasks| - 1] + [tasks[|tasks| - 1]];
    }
  }

  // ----- a locked user -----

  ghost predicate Locked(db: Db, user: nat) {
    user < |db.users| && db.users[user].credential.RESET_REQUIRED?
  }

  /** The operation consumes one of the user's tokens. */
  predicate CommitsFor(s: State, op: Op, user: nat) {
    Commits(s, op) && s.db.tokens[s.claims[op.claim].token].user == user
  }

  lemma OpenKeepsLock(s: State, op: Op, c: Config, user: nat)
    requires Locked(s.db, user) && Opens(s, op, c)
    ensures Locked(Step(s, op, c).db, user) && Entries(Step(s, op, c), user) == Entries(s, user)
  {
    var session := Step(s, op, c).db.sessions[|s.db.sessions|];
    Seqs.DropLast(s.db.sessions, session);
    LoginDone(s.tasks, op.task, Done, user);
  }

  lemma TaskKeepsLock(s: State, op: Op, c: Config, user: nat)
    requires Locked(s.db, user) && Performed(s, op, c).Some? && !Opens(s, op, c)
    ensures Locked(Step(s, op, c).db, user) && Entries(Step(s, op, c), user) == Entries(s, user)
  {
    SameSessionsOf(Step(s, op, c).db.sessions, s.db.sessions, user);
    LoginDone(s.tasks, op.task, Performed(s, op, c).value.1, user);
  }

  lemma PlanKeepsLock(s: State, op: Op, c: Config, user: nat)
    requires Locked(s.db, user) && Planned(s.db, op, c).Some?
    ensures Locked(Step(s, op, c).db, user) && Entries(Step(s, op, c), user) == Entries(s, user)
  {
    SameSessionsOf(Step(s, op, c).db.sessions, s.db.sessions, user);
    Seqs.DropLast(s.tasks, Planned(s.db, op, c).value);
  }

  lemma AttemptKeepsLock(s: State, op: Op, c: Config, user: nat)
    requires Locked(s.db, user) && Attempt(s.db, op, c).Some?
    ensures var after := Attempt(s.db, op, c).value;
            Locked(after, user) && SessionsOf(after.sessions, user) == SessionsOf(s.db.sessions, user)
  {
    var after := Attempt(s.db, op, c).value;
    SameSessionsOf(after.sessions, s.db.sessions, user);
  }

  /** Only consuming one of the user's tokens unlocks the user, and the only sessions a locked
      user gets are those of logins that passed their checks before. */
  lemma StepKeepsLock(s: State, op: Op, c: Config, user: nat)
    requires Locked(s.db, user) && !CommitsFor(s, op, user)
    ensures Locked(Step(s, op, c).db, user) && Entries(Step(s, op, c), user) == Entries(s, user)
  {
    if Commits(s, op) {
      SameSessionsOf(Step(s, op, c).db.sessions, s.db.sessions, user);
    } else if Opens(s, op, c) {
      OpenKeepsLock(s, op, c, user);
    } else if Performed(s, op, c).Some? {
      TaskKeepsLock(s, op, c, user);
    } else if Planned(s.db, op, c).Some? {
      PlanKeepsLock(s, op, c, user);
    } else if Attempt(s.db, op, c).Some? {
      AttemptKeepsLock(s, op, c, user);
    }
  }

  /** None of the user's tokens has been consumed since. */
  ghost predicate NoneConsumed(before: seq<Token>, after: seq<Token>, user: nat) {
    forall t :: 0 <= t < |after| && after[t].user == user && after[t].consumed ==> t < |before| && before[t].consumed
  }

  lemma NoneConsumedBefore(tokens: seq<Token>, s: State, op: Op, c: Config, user: nat)
    requires TokensHaveUsers(s.db) && NoneConsumed(tokens, Step(s, op, c).db.tokens, user)
    ensures NoneConsumed(tokens, s.db.tokens, user)
    ensures CommitsFor(s, op, user)
            ==> s.claims[op.claim].token < |tokens| && tokens[s.claims[op.claim].token].consumed
  {
    forall t | 0 <= t < |s.db.tokens|
      ensures t < |Step(s, op, c).db.tokens| && Step(s, op, c).db.tokens[t].user == s.db.tokens[t].user
      ensures Step(s, op, c).db.tokens[t].consumed
          <==> s.db.tokens[t].consumed || (Commits(s, op) && s.claims[op.claim].token == t)
    {
      TokenAfter(s, op, t, c);
    }
  }

  lemma {:induction false} ConsumedStays(s: State, ops: seq<Op>, t: nat, c: Config)
    requires TokensHaveUsers(s.db) && t < |s.db.tokens|
    ensures TokensHaveUsers(Run(s, ops, c).db) && t < |Run(s, ops, c).db.tokens|
    ensures s.db.tokens[t].consumed ==> Run(s, ops, c).db.tokens[t].consumed
    ensures Run(s, ops, c).db.tokens[t].user == s.db.tokens[t].user
  {
    if ops != [] {
      var before := Run(s, ops[..|ops| - 1], c);
      ConsumedStays(s, ops[..|ops| - 1], t, c);
      StepKeepsUsers(before, ops[|ops| - 1], c);
      TokenAfter(before, ops[|ops| - 1], t, c);
    }
  }

  lemma {:induction false} RunKeepsUsers(s: State, ops: seq<Op>, c: Config)
    requires TokensHaveUsers(s.db)
    ensures TokensHaveUsers(Run(s, ops, c).db)
  {
    if ops != [] {
      RunKeepsUsers(s, ops[..|ops| - 1], c);
      StepKeepsUsers(Run(s, ops[..|ops| - 1], c), ops[|ops| - 1], c);
    }
  }

  /** From a state where the user's credential needs a reset: as long as no token of the user is
      consumed the credential stays so, and each session the user gets is that of a login which
      passed its checks before. */
  lemma {:induction false} NoLoginUntilTokenConsumed(s: State, ops: seq<Op>, c: Config, user: nat)
    requires Locked(s.db, user) && TokensHaveUsers(s.db)
    requires NoneConsumed(s.db.tokens, Run(s, ops, c).db.tokens, user)
    ensures Locked(Run(s, ops, c).db, user) && Entries(Run(s, ops, c), user) == Entries(s, user)
  {
    if ops != [] {
      var front, last := ops[..|ops| - 1], ops[|ops| - 1];
      var before := Run(s, front, c);
      RunKeepsUsers(s, front, c);
      NoneConsumedBefore(s.db.tokens, before, last, c, user);
      NoLoginUntilTokenConsumed(s, front, c, user);
      if CommitsFor(before, last, user) {
        ConsumedStays(s, front, before.claims[last.claim].token, c);
        assert false;
      }
      StepKeepsLock(before, last, c, user);
    }
  }

  // ----- the reset -----

  /** The transaction of an admin reset of a user who was not PENDING when read. */
  predicate Resets(s: State, op: Op, user: nat, c: Config) {
    TaskOf(s, op) == Reset(user, RESET_PASSWORD) && Performed(s, op, c).Some?
  }

  lemma ResetLocks(s: State, op: Op, c: Config, user: nat)
    requires Resets(s, op, user, c)
    ensures var after := Step(s, op, c);
            && Locked(after.db, user) && Entries(after, user) == Entries(s, user) && after.claims == s.claims
            && LoginsOf(after.tasks, user) == LoginsOf(s.tasks, user)
            && |after.db.sessions| == |s.db.sessions| && |after.db.tokens| == |s.db.tokens| + 1
            && forall i :: 0 <= i < |s.db.sessions| ==>
                 && after.db.sessions[i].user == s.db.sessions[i].user
                 && (s.db.sessions[i].user == user ==> after.db.sessions[i].revoked)
  {
    SameSessionsOf(RevokeAll(s.db.sessions, user, -1), s.db.sessions, user);
    LoginDone(s.tasks, op.task, Done, user);
  }

  lemma {:induction false} RevokedStays(s: State, ops: seq<Op>, i: nat, c: Config)
    requires i < |s.db.sessions|
    ensures i < |Run(s, ops, c).db.sessions| && Run(s, ops, c).db.sessions[i].user == s.db.sessions[i].user
    ensures s.db.sessions[i].revoked ==> Run(s, ops, c).db.sessions[i].revoked
  {
    if ops != [] {
      RevokedStays(s, ops[..|ops| - 1], i, c);
      StepKeepsRight(Run(s, ops[..|ops| - 1], c), ops[|ops| - 1], c, i);
    }
  }

  lemma {:induction false} SessionsRemain(s: State, ops: seq<Op>, c: Config)
    ensures |s.db.sessions| <= |Run(s, ops, c).db.sessions|
  {
    if ops != [] {
      SessionsRemain(s, ops[..|ops| - 1], c);
      OnlyOpensAdd(Run(s, ops[..|ops| - 1], c), ops[|ops| - 1], c);
    }
  }

  lemma NoneConsumedSinceReset(s: State, op: Op, later: seq<Token>, user: nat, c: Config)
    requires TokensHaveUsers(s.db) && NoneConsumed(s.db.tokens, later, user)
    ensures NoneConsumed(Step(s, op, c).db.tokens, later, user)
  {
    forall t | 0 <= t < |s.db.tokens|
      ensures t < |Step(s, op, c).db.tokens| && (s.db.tokens[t].consumed ==> Step(s, op, c).db.tokens[t].consumed)
    {
      TokenAfter(s, op, t, c);
    }
  }

  /** After an admin reset of a user who is not PENDING and has no login between its checks and
      its session, in any continuation of any run: until one of the user's tokens is consumed,
      every session of the user is revoked and no login passes its checks. */
  lemma NoLoginAfterAdminReset(before: seq<Op>, s: State, user: nat, op: Op, after: seq<Op>, end: State, c: Config)
    requires s == Run(START, before, c) && Resets(s, op, user, c) && end == Run(Step(s, op, c), after, c)
    requires LoginsOf(s.tasks, user) == 0 && NoneConsumed(s.db.tokens, end.db.tokens, user)
    ensures Locked(end.db, user) && LoginsOf(end.tasks, user) == 0
    ensures forall i :: 0 <= i < |end.db.sessions| && end.db.sessions[i].user == user ==> end.db.sessions[i].revoked
  {
    var reset := Step(s, op, c);
    EveryTokenHasAUser(before, c);
    StepKeepsUsers(s, op, c);
    ResetLocks(s, op, c, user);
    NoneConsumedSinceReset(s, op, end.db.tokens, user, c);
    NoLoginUntilTokenConsumed(reset, after, c, user);
    SessionsStayRevoked(reset, after, end, user, c);
    assert SessionsOf(end.db.sessions, user) == SessionsOf(reset.db.sessions, user);
  }

  lemma SessionsStayRevoked(s: State, ops: seq<Op>, end: State, user: nat, c: Config)
    requires end == Run(s, ops, c)
    requires forall i :: 0 <= i < |s.db.sessions| && s.db.sessions[i].user == user ==> s.db.sessions[i].revoked
    ensures SessionsOf(s.db.sessions, user) <= SessionsOf(end.db.sessions, user)
    ensures SessionsOf(s.db.sessions, user) == SessionsOf(end.db.sessions, user) ==>
      forall i :: 0 <= i < |end.db.sessions| && end.db.sessions[i].user == user ==> end.db.sessions[i].revoked
  {
    SessionsRemain(s, ops, c);
    forall i | 0 <= i < |s.db.sessions|
      ensures end.db.sessions[i].user == s.db.sessions[i].user
      ensures s.db.sessions[i].revoked ==> end.db.sessions[i].revoked
    {
      RevokedStays(s, ops, i, c);
    }
    NoMoreSessionsOf(s.db.sessions, end.db.sessions, user);
  }

  /** The secret resolves to a session of the user. */
  predicate Enters(db: Db, user: nat, secret: string, now: int, c: Config) {
    Resolved(db, secret, now, c).Some? && db.sessions[ValidSession(db, secret, now)].user == user
  }

  lemma NewSessionIsValid(db: Db, session: Session, now: int)
    requires 0 < |session.secret| <= 256 && !session.revoked
    requires now < session.idleExpires && now < session.absoluteExpires
    requires db.sessions != [] && db.sessions[|db.sessions| - 1] == session
    ensures ValidSession(db, session.secret, now) == |db.sessions| - 1
  {
  }

  lemma ValidEnters(db: Db, i: nat, user: nat, secret: string, now: int, c: Config)
    requires ValidSession(db, secret, now) == i < |db.sessions| && db.sessions[i].user == user
    requires user < |db.users| && db.users[user].status.ACTIVE?
    ensures Enters(db, user, secret, now, c)
  {
  }

  lemma OpenedResolves(db: Db, user: nat, cookie: string, now: int, c: Config)
    requires user < |db.users| && db.users[user].status.ACTIVE? && FindSession(db.sessions, cookie) < 0
    requires 0 < |cookie| <= 256 && c.idle > 0 && c.absolute > 0
    ensures Enters(Opened(db, user, cookie, now, c).value, user, cookie, now, c)
  {
    var session := Session(user, cookie, now + c.idle, now + c.absolute, false);
    var after := Opened(db, user, cookie, now, c).value;
    assert after.sessions == db.sessions + [session];
    NewSessionIsValid(after, session, now);
    ValidEnters(after, |db.sessions|, user, cookie, now, c);
  }

  lemma ThreeSteps(s: State, a: Op, b: Op, d: Op, c: Config)
    ensures Run(s, [a, b, d], c) == Step(Step(Step(s, a, c), b, c), d, c)
  {
    var all, two, one := [a, b, d], [a, b], [a];
    assert all[..2] == two && two[..1] == one && one[..0] == [];
    assert Run(s, one, c) == Step(Run(s, [], c), a, c);
    assert Run(s, two, c) == Step(Run(s, one, c), b, c);
  }

  /** The admin can make a user who is not PENDING active or not. */
  lemma ManageFits(s: State, user: nat, name: string, enabled: bool, k: nat, after: State, c: Config)
    requires user == FindUser(s.db.users, name) && !s.db.users[user].status.PENDING? && k == |s.tasks|
    requires after == Step(Step(s, Manage(name, enabled), c), Apply(k), c)
    ensures |after.db.users| == |s.db.users| && (after.db.users[user].status.ACTIVE? <==> enabled)
    ensures after.claims == s.claims && after.db.tokens == s.db.tokens && after.db.sessions == s.db.sessions
    ensures k <= |after.tasks| && after.tasks[..k] == s.tasks
  {
  }

  /** No two users share their name. */
  ghost predicate NamesDiffer(users: seq<User>) {
    forall i, j :: 0 <= i < j < |users| ==> users[i].name != users[j].name
  }

  lemma {:induction false} NameNotFound(users: seq<User>, name: string)
    ensures FindUser(users, name) < 0 <==> forall i :: 0 <= i < |users| ==> users[i].name != name
  {
    if users != [] {
      NameNotFound(users[..|users| - 1], name);
    }
  }

  lemma FoundByName(users: seq<User>, u: nat)
    requires NamesDiffer(users) && u < |users|
    ensures FindUser(users, users[u].name) == u
  {
    NameNotFound(users, users[u].name);
  }

  /** A reset for a password is of a user who is not PENDING, and never is again. */
  ghost predicate ResetsFit(s: State) {
    forall k :: 0 <= k < |s.tasks| && s.tasks[k].Reset? && s.tasks[k].purpose.RESET_PASSWORD? ==>
      s.tasks[k].user < |s.db.users| && !s.db.users[s.tasks[k].user].status.PENDING?
  }

  lemma UserAfterTask(s: State, op: Op, u: nat, c: Config)
    requires u < |s.db.users| && Performed(s, op, c).Some?
    ensures var after := Performed(s, op, c).value.0.users;
            && u < |after| && after[u].name == s.db.users[u].name
            && (!s.db.users[u].status.PENDING? ==> !after[u].status.PENDING?)
  {
  }

  lemma UserAfter(s: State, op: Op, u: nat, c: Config)
    requires u < |s.db.users|
    ensures var after := Step(s, op, c).db.users;
            && u < |after| && after[u].name == s.db.users[u].name
            && (!s.db.users[u].status.PENDING? ==> !after[u].status.PENDING?)
  {
    if !op.Lookup? && !Commits(s, op) && Performed(s, op, c).Some? {
      UserAfterTask(s, op, u, c);
    }
  }

  lemma TaskAfter(s: State, op: Op, k: nat, c: Config)
    requires k < |Step(s, op, c).tasks| && Step(s, op, c).tasks[k].Reset?
    ensures || (k < |s.tasks| && Step(s, op, c).tasks[k] == s.tasks[k])
            || (Step(s, op, c).db == s.db && Planned(s.db, op, c) == Some(Step(s, op, c).tasks[k]))
  {
  }

  lemma StepKeepsFit(s: State, op: Op, c: Config)
    requires ResetsFit(s)
    ensures ResetsFit(Step(s, op, c))
  {
    var after := Step(s, op, c);
    forall k | 0 <= k < |after.tasks| && after.tasks[k].Reset? && after.tasks[k].purpose.RESET_PASSWORD?
      ensures after.tasks[k].user < |after.db.users| && !after.db.users[after.tasks[k].user].status.PENDING?
    {
      TaskAfter(s, op, k, c);
      if k < |s.tasks| && after.tasks[k] == s.tasks[k] {
        UserAfter(s, op, s.tasks[k].user, c);
      }
    }
  }

  lemma StepKeepsNames(s: State, op: Op, c: Config)
    requires NamesDiffer(s.db.users)
    ensures NamesDiffer(Step(s, op, c).db.users)
  {
    if op.Provision? {
      NameNotFound(s.db.users, op.name);
    } else {
      OnlyProvisionAdds(s, op, c);
      forall u | 0 <= u < |s.db.users| ensures Step(s, op, c).db.users[u].name == s.db.users[u].name {
        UserAfter(s, op, u, c);
      }
    }
  }

  lemma OnlyProvisionAdds(s: State, op: Op, c: Config)
    requires !op.Provision?
    ensures |Step(s, op, c).db.users| == |s.db.users|
  {
  }

  lemma {:induction false} EveryRunFits(ops: seq<Op>, c: Config)
    ensures NamesDiffer(Run(START, ops, c).db.users) && ResetsFit(Run(START, ops, c))
  {
    if ops != [] {
      EveryRunFits(ops[..|ops| - 1], c);
      StepKeepsNames(Run(START, ops[..|ops| - 1], c), ops[|ops| - 1], c);
      StepKeepsFit(Run(START, ops[..|ops| - 1], c), ops[|ops| - 1], c);
    }
  }

  /** The user of a reset, found again by name after it. */
  lemma ResetUser(before: seq<Op>, s: State, reset: State, op: Op, user: nat, c: Config) returns (name: string)
    requires s == Run(START, before, c) && Resets(s, op, user, c) && reset == Step(s, op, c)
    ensures user == FindUser(reset.db.users, name) && !reset.db.users[user].status.PENDING?
  {
    EveryRunFits(before, c);
    StepKeepsNames(s, op, c);
    UserAfter(s, op, user, c);
    FoundByName(reset.db.users, user);
    name := reset.db.users[user].name;
  }

  /** A login between its checks and its session survives the reset. */
  lemma PendingLoginEnters(s: State, k: nat, user: nat, name: string, cookie: string, now: int, c: Config)
    requires user == FindUser(s.db.users, name) && !s.db.users[user].status.PENDING?
    requires k < |s.tasks| && s.tasks[k] == Enter(user) && FindSession(s.db.sessions, cookie) < 0
    requires 0 < |cookie| <= 256 && c.idle > 0 && c.absolute > 0
    ensures var after := Run(s, [Manage(name, true), Apply(|s.tasks|), Open(k, cookie, now)], c).db;
            Enters(after, user, cookie, now, c) && after.tokens == s.db.tokens
  {
    var open := Open(k, cookie, now);
    var enabled := Step(Step(s, Manage(name, true), c), Apply(|s.tasks|), c);
    ThreeSteps(s, Manage(name, true), Apply(|s.tasks|), open, c);
    ManageFits(s, user, name, true, |s.tasks|, enabled, c);
    assert enabled.tasks[..|s.tasks|][k] == Enter(user);
    OpenedResolves(enabled.db, user, cookie, now, c);
    assert Performed(enabled, open, c) == Some((Opened(enabled.db, user, cookie, now, c).value, Done));
  }

  lemma LoginSurvives(s: State, op: Op, k: nat, user: nat, c: Config)
    requires Resets(s, op, user, c) && k < |s.tasks| && s.tasks[k] == Enter(user)
    ensures k < |Step(s, op, c).tasks| && Step(s, op, c).tasks[k] == Enter(user)
  {
  }

  lemma NothingConsumedByReset(s: State, op: Op, user: nat, c: Config)
    requires Resets(s, op, user, c)
    ensures NoneConsumed(s.db.tokens, Step(s, op, c).db.tokens, user)
  {
  }

  /** After such a reset, some continuation gives the user a working session without consuming a
      token, exactly when a login of the user was between its checks and its session. */
  lemma SessionAfterResetIff(before: seq<Op>, s: State, reset: State, user: nat, op: Op, cookie: string, now: int,
                             c: Config)
    requires s == Run(START, before, c) && Resets(s, op, user, c) && reset == Step(s, op, c)
    requires FindSession(s.db.sessions, cookie) < 0 && 0 < |cookie| <= 256 && c.idle > 0 && c.absolute > 0
    ensures (exists after ::
               && NoneConsumed(s.db.tokens, Run(reset, after, c).db.tokens, user)
               && Enters(Run(reset, after, c).db, user, cookie, now, c))
        <==> LoginsOf(s.tasks, user) > 0
  {
    if LoginsOf(s.tasks, user) > 0 {
      LoginAmong(s.tasks, user);
      var k :| 0 <= k < |s.tasks| && s.tasks[k] == Enter(user);
      var name := ResetUser(before, s, reset, op, user, c);
      SameSecrets(s.db.sessions, reset.db.sessions, cookie);
      LoginSurvives(s, op, k, user, c);
      PendingLoginEnters(reset, k, user, name, cookie, now, c);
      NothingConsumedByReset(s, op, user, c);
      var after := [Manage(name, true), Apply(|reset.tasks|), Open(k, cookie, now)];
      assert Run(reset, after, c).db.tokens == reset.db.tokens;
    } else {
      forall after | NoneConsumed(s.db.tokens, Run(reset, after, c).db.tokens, user)
        ensures !Enters(Run(reset, after, c).db, user, cookie, now, c)
      {
        NoLoginAfterAdminReset(before, s, user, op, after, Run(reset, after, c), c);
      }
    }
  }
}
