/** What every run of the identity operations keeps.  A request reads first and writes in later
    statements: looking a token up and consuming it, the checks of a login and the insertion of
    its session, reading a user and enabling, disabling or resetting it are separate steps that
    any number of clients make in any order.  So are the resolution of a session for a password
    change, the check of the current password and the update. */
module IdentityLaws {
  import opened Options
  import opened Identity
  import Seqs

  datatype Op =
    | Provision(name: string, secret: string, now: int)
    | Lookup(secret: string, purpose: Purpose, password: string, now: int)
    | Consume(claim: nat, now: int)
    | FindForReset(name: string)
    | ResetByAdmin(task: nat, secret: string, now: int)
    | Manage(name: string, enabled: bool)
    | Apply(task: nat)
    | RevokeSessions(name: string)
    | Check(name: string, password: string)
    | Open(task: nat, secret: string, now: int)
    | Logout(secret: string, now: int)
    | Resolve(secret: string, now: int)
    | BeginChange(secret: string, now: int)
    | CheckChange(task: nat, current: string, password: string)

  /** What a client that has read a user is still to do: open the session of a login that passed
      its checks, set a status, make the revocation that follows a disabling, reset, check the
      current password of a change of password, or make one that passed this check. */
  datatype Task =
    | Enter(user: nat)
    | Enable(user: nat)
    | Disable(user: nat)
    | Revoke(user: nat)
    | Reset(user: nat, purpose: Purpose)
    | Verify(user: nat, session: nat)
    | Renew(user: nat, session: nat, password: string)
    | Done

  /** `claims` are the tokens clients have looked up; `commits` records the claims whose
      transaction committed. */
  datatype State = State(db: Db, claims: seq<Claim>, commits: seq<Claim>, tasks: seq<Task>)

  /** The tables after an operation that is one step; an error leaves them as they were. */
  function Attempt(db: Db, op: Op, c: Config): Option<Db> {
    match op
    case Provision(name, secret, now) => Provisioned(db, name, secret, now, c)
    case RevokeSessions(name) => SessionsRevoked(db, name)
    case Logout(secret, now) => LoggedOut(db, secret, now)
    case Resolve(secret, now) => Resolved(db, secret, now, c)
    case _ => None
  }

  /** What a client that reads a user will do. */
  function Planned(db: Db, op: Op, c: Config): Option<Task> {
    match op
    case Check(name, password) =>
      var id := Checked(db, name, password);
      if id.Some? then Some(Enter(id.value)) else None
    case Manage(name, enabled) =>
      var id := Manageable(db, name, enabled);
      if id.None? then None else Some(if enabled then Enable(id.value) else Disable(id.value))
    case FindForReset(name) =>
      var i := FindUser(db.users, name);
      if i < 0 then None else Some(Reset(i, ResetPurpose(db.users[i])))
    case BeginChange(secret, now) =>
      if Resolved(db, secret, now, c).None? then None
      else Some(Verify(db.sessions[ValidSession(db, secret, now)].user, ValidSession(db, secret, now)))
    case _ => None
  }

  /** The tables after such a read, which moves the idle limit of a session that resolves. */
  function Touched(db: Db, op: Op, c: Config): Db {
    if op.BeginChange? && Resolved(db, op.secret, op.now, c).Some? then Resolved(db, op.secret, op.now, c).value
    else db
  }

  /** The task an operation works on. */
  function TaskOf(s: State, op: Op): Task {
    if (op.Open? || op.ResetByAdmin? || op.Apply? || op.CheckChange?) && op.task < |s.tasks| then s.tasks[op.task]
    else Done
  }

  /** The tables after one statement or transaction of a task, and what is left of the task. */
  function Performed(s: State, op: Op, c: Config): Option<(Db, Task)> {
    match TaskOf(s, op)
    case Enter(user) =>
      if op.Open? && Opened(s.db, user, op.secret, op.now, c).Some?
      then Some((Opened(s.db, user, op.secret, op.now, c).value, Done)) else None
    case Reset(user, purpose) =>
      if op.ResetByAdmin? && ResetFor(s.db, user, purpose, op.secret, op.now, c).Some?
      then Some((ResetFor(s.db, user, purpose, op.secret, op.now, c).value, Done)) else None
    case Enable(user) => if op.Apply? then Some((StatusSet(s.db, user, ACTIVE), Done)) else None
    case Disable(user) => if op.Apply? then Some((StatusSet(s.db, user, DISABLED), Revoke(user))) else None
    case Revoke(user) => if op.Apply? then Some((WithoutSessions(s.db, user), Done)) else None
    case Verify(user, session) =>
      if !op.CheckChange? then None
      else if MayChange(s.db, user, op.current, op.password, c) then Some((s.db, Renew(user, session, op.password)))
      else Some((s.db, Done))
    case Renew(user, session, password) =>
      if op.Apply? then Some((Renewed(s.db, user, session, password), Done)) else None
    case Done => None
  }

  /** The operation opens the session of a login that passed its checks. */
  predicate Opens(s: State, op: Op, c: Config) {
    TaskOf(s, op).Enter? && Performed(s, op, c).Some?
  }

  /** The operation consumes a token. */
  predicate Commits(s: State, op: Op) {
    op.Consume? && op.claim < |s.claims| && Consumed(s.db, s.claims[op.claim]).Some?
  }

  function Step(s: State, op: Op, c: Config): State {
    if op.Lookup? then
      var id := LookedUp(s.db, op.secret, op.purpose, op.password, op.now, c);
      if id.Some? then s.(claims := s.claims + [Claim(id.value, op.purpose, op.password)]) else s
    else if Commits(s, op) then
      s.(db := Consumed(s.db, s.claims[op.claim]).value, commits := s.commits + [s.claims[op.claim]])
    else if Performed(s, op, c).Some? then
      s.(db := Performed(s, op, c).value.0, tasks := s.tasks[op.task := Performed(s, op, c).value.1])
    else if Planned(s.db, op, c).Some? then
      s.(db := Touched(s.db, op, c), tasks := s.tasks + [Planned(s.db, op, c).value])
    else if Attempt(s.db, op, c).Some? then s.(db := Attempt(s.db, op, c).value)
    else s
  }

  function Run(s: State, ops: seq<Op>, c: Config): State {
    if ops == [] then s else Step(Run(s, ops[..|ops| - 1], c), ops[|ops| - 1], c)
  }

  const START := State(Db([], [], []), [], [], [])

  // ----- sessions -----

  /** The user is ACTIVE with a VALID credential. */
  predicate MayEnter(db: Db, user: nat) {
    user < |db.users| && MayHaveSessions(db.users[user])
  }

  /** The user may have sessions, or a client that disabled the user is still to revoke them. */
  predicate Settled(s: State, user: nat) {
    MayEnter(s.db, user) || Revoke(user) in s.tasks
  }

  /** Every unrevoked session belongs to an ACTIVE user with a VALID credential, or is about to
      be revoked. */
  ghost predicate SessionsAreSafe(s: State) {
    forall i :: 0 <= i < |s.db.sessions| && !s.db.sessions[i].revoked ==> Settled(s, s.db.sessions[i].user)
  }

  lemma SessionAfterTask(s: State, op: Op, c: Config, i: nat)
    requires i < |s.db.sessions| && Performed(s, op, c).Some?
    ensures var after := Performed(s, op, c).value.0.sessions;
            && i < |after| && after[i].user == s.db.sessions[i].user && after[i].secret == s.db.sessions[i].secret
            && (s.db.sessions[i].revoked ==> after[i].revoked)
            && (op.Apply? && TaskOf(s, op) == Revoke(s.db.sessions[i].user) ==> after[i].revoked)
  {
  }

  /** A session stays what it is; performing a revocation revokes it. */
  lemma SessionAfter(s: State, op: Op, c: Config, i: nat)
    requires i < |s.db.sessions|
    ensures var after := Step(s, op, c).db.sessions;
            && i < |after| && after[i].user == s.db.sessions[i].user && after[i].secret == s.db.sessions[i].secret
            && (s.db.sessions[i].revoked ==> after[i].revoked)
            && (op.Apply? && TaskOf(s, op) == Revoke(s.db.sessions[i].user) ==> after[i].revoked)
  {
    if !op.Lookup? && !Commits(s, op) && Performed(s, op, c).Some? {
      SessionAfterTask(s, op, c, i);
    }
  }

  /** A revocation to follow remains so until it is performed. */
  lemma RevocationStays(s: State, op: Op, c: Config, user: nat)
    requires Revoke(user) in s.tasks && !(op.Apply? && TaskOf(s, op) == Revoke(user))
    ensures Revoke(user) in Step(s, op, c).tasks
  {
    if !op.Lookup? && !Commits(s, op) && Performed(s, op, c).Some? {
      var k :| 0 <= k < |s.tasks| && s.tasks[k] == Revoke(user);
      assert Step(s, op, c).tasks[k] == Revoke(user);
    }
  }

  lemma RightAfterTask(s: State, op: Op, c: Config, i: nat)
    requires i < |s.db.sessions| && MayEnter(s.db, s.db.sessions[i].user) && Performed(s, op, c).Some?
    requires TaskOf(s, op) != Disable(s.db.sessions[i].user)
    ensures var after := Performed(s, op, c).value.0;
            i < |after.sessions| && (after.sessions[i].revoked || MayEnter(after, s.db.sessions[i].user))
  {
  }

  lemma RightAfter(s: State, op: Op, c: Config, i: nat)
    requires i < |s.db.sessions| && MayEnter(s.db, s.db.sessions[i].user)
    ensures var after := Step(s, op, c);
            i < |after.db.sessions| && (after.db.sessions[i].revoked || Settled(after, s.db.sessions[i].user))
  {
    if !op.Lookup? && !Commits(s, op) && Performed(s, op, c).Some? {
      if TaskOf(s, op) == Disable(s.db.sessions[i].user) {
        assert Step(s, op, c).tasks[op.task] == Revoke(s.db.sessions[i].user);
      } else {
        RightAfterTask(s, op, c, i);
      }
    }
  }

  /** Whatever takes a user's right to sessions revokes them, then or later. */
  lemma StepKeepsRight(s: State, op: Op, c: Config, i: nat)
    requires i < |s.db.sessions|
    ensures var after := Step(s, op, c);
            && i < |after.db.sessions| && after.db.sessions[i].user == s.db.sessions[i].user
            && (s.db.sessions[i].revoked ==> after.db.sessions[i].revoked)
            && (Settled(s, s.db.sessions[i].user) && !after.db.sessions[i].revoked
                ==> Settled(after, s.db.sessions[i].user))
  {
    var user := s.db.sessions[i].user;
    SessionAfter(s, op, c, i);
    if MayEnter(s.db, user) {
      RightAfter(s, op, c, i);
    } else if Revoke(user) in s.tasks && !(op.Apply? && TaskOf(s, op) == Revoke(user)) {
      RevocationStays(s, op, c, user);
    }
  }

  lemma OnlyOpensAdd(s: State, op: Op, c: Config)
    ensures var after := Step(s, op, c).db.sessions;
            if Opens(s, op, c) then
              && |after| == |s.db.sessions| + 1 && Step(s, op, c).db.users == s.db.users
              && after[|s.db.sessions|].user == TaskOf(s, op).user && !after[|s.db.sessions|].revoked
              && (forall user :: Revoke(user) in Step(s, op, c).tasks <==> Revoke(user) in s.tasks)
            else |after| == |s.db.sessions|
  {
    if Opens(s, op, c) {
      var after := s.tasks[op.task := Done];
      forall user ensures Revoke(user) in after <==> Revoke(user) in s.tasks {
        if k :| 0 <= k < |s.tasks| && s.tasks[k] == Revoke(user) {
          assert after[k] == Revoke(user);
        }
      }
    }
  }

  lemma StepStaysSafeIff(s: State, op: Op, c: Config)
    requires SessionsAreSafe(s)
    ensures SessionsAreSafe(Step(s, op, c)) <==> (Opens(s, op, c) ==> Settled(s, TaskOf(s, op).user))
  {
    var after := Step(s, op, c);
    OnlyOpensAdd(s, op, c);
    forall i | 0 <= i < |s.db.sessions| && !after.db.sessions[i].revoked
      ensures Settled(after, after.db.sessions[i].user)
    {
      StepKeepsRight(s, op, c, i);
    }
  }

  /** Every session was opened while its user was still ACTIVE with a VALID credential, or a
      revocation of the user's sessions was to follow. */
  predicate OpenedInTime(ops: seq<Op>, c: Config) {
    if ops == [] then true
    else
      var s, last := Run(START, ops[..|ops| - 1], c), ops[|ops| - 1];
      && OpenedInTime(ops[..|ops| - 1], c)
      && (Opens(s, last, c) ==> Settled(s, TaskOf(s, last).user))
  }

  /** Sessions are safe at the end of the run and at every moment before. */
  ghost predicate AlwaysSafe(ops: seq<Op>, c: Config) {
    SessionsAreSafe(Run(START, ops, c)) && (ops != [] ==> AlwaysSafe(ops[..|ops| - 1], c))
  }

  /** At every moment of a run each unrevoked session belongs to an ACTIVE user with a VALID
      credential or is about to be revoked, exactly when every session was opened in time. */
  lemma {:induction false} EveryRunIsSafeIff(ops: seq<Op>, c: Config)
    ensures AlwaysSafe(ops, c) <==> OpenedInTime(ops, c)
  {
    if ops != [] {
      var front, last := ops[..|ops| - 1], ops[|ops| - 1];
      EveryRunIsSafeIff(front, c);
      if AlwaysSafe(front, c) {
        StepStaysSafeIff(Run(START, front, c), last, c);
      }
    }
  }

  /** A session without a right to it was opened too late, and at no moment since has its user
      had a right to sessions or a revocation been to follow. */
  lemma {:induction false} LateSessionWasNeverSafe(ops: seq<Op>, n: nat, i: nat, c: Config)
    requires n <= |ops| && i < |Run(START, ops[..n], c).db.sessions|
    ensures var early, end := Run(START, ops[..n], c), Run(START, ops, c);
            && i < |end.db.sessions| && end.db.sessions[i].user == early.db.sessions[i].user
            && (!end.db.sessions[i].revoked && !Settled(end, end.db.sessions[i].user)
                ==> !early.db.sessions[i].revoked && !Settled(early, end.db.sessions[i].user))
  {
    if n == |ops| {
      assert ops[..n] == ops;
    } else {
      var front := ops[..|ops| - 1];
      assert front[..n] == ops[..n];
      LateSessionWasNeverSafe(front, n, i, c);
      StepKeepsRight(Run(START, front, c), ops[|ops| - 1], c, i);
    }
  }

  // ----- tokens -----

  /** At most one token per user and purpose is neither consumed nor revoked. */
  ghost predicate OneLiveToken(tokens: seq<Token>) {
    forall i, j :: 0 <= i < j < |tokens| && Live(tokens[i]) && Live(tokens[j]) ==>
      tokens[i].user != tokens[j].user || tokens[i].purpose != tokens[j].purpose
  }

  lemma IssuedStaysSingle(tokens: seq<Token>, user: nat, purpose: Purpose, secret: string, now: int, c: Config)
    requires OneLiveToken(tokens)
    ensures OneLiveToken(Issued(tokens, user, purpose, secret, now, c))
    ensures |Issued(tokens, user, purpose, secret, now, c)| == |tokens| + 1
    ensures forall i :: 0 <= i < |tokens| ==>
      Issued(tokens, user, purpose, secret, now, c)[i] in {tokens[i], tokens[i].(revoked := true)}
  {
  }

  /** How many committed claims name the token. */
  function CommitsOf(commits: seq<Claim>, token: nat): nat {
    if commits == [] then 0
    else CommitsOf(commits[..|commits| - 1], token) + if commits[|commits| - 1].token == token then 1 else 0
  }

  ghost predicate ForItsPurpose(tokens: seq<Token>, claims: seq<Claim>) {
    forall claim :: claim in claims ==> claim.token < |tokens| && tokens[claim.token].purpose == claim.purpose
  }

  /** A consumed token was committed once, any other never, and always for its own purpose. */
  ghost predicate TokensAreSound(s: State) {
    && OneLiveToken(s.db.tokens)
    && ForItsPurpose(s.db.tokens, s.claims) && ForItsPurpose(s.db.tokens, s.commits)
    && forall t :: 0 <= t < |s.db.tokens| ==> CommitsOf(s.commits, t) == if s.db.tokens[t].consumed then 1 else 0
  }

  lemma {:induction false} NoCommitYet(commits: seq<Claim>, token: nat)
    requires forall claim :: claim in commits ==> claim.token != token
    ensures CommitsOf(commits, token) == 0
  {
    if commits != [] {
      assert commits[|commits| - 1] in commits;
      NoCommitYet(commits[..|commits| - 1], token);
    }
  }

  lemma CommitMore(commits: seq<Claim>, claim: Claim, token: nat)
    ensures CommitsOf(commits + [claim], token) == CommitsOf(commits, token) + if claim.token == token then 1 else 0
  {
    Seqs.DropLast(commits, claim);
  }

  lemma ConsumeStaysSound(s: State, op: Op, c: Config)
    requires TokensAreSound(s) && Commits(s, op)
    ensures TokensAreSound(Step(s, op, c))
  {
    var claim := s.claims[op.claim];
    assert claim in s.claims;
    forall t | 0 <= t < |s.db.tokens|
      ensures CommitsOf(s.commits + [claim], t) == CommitsOf(s.commits, t) + if claim.token == t then 1 else 0
    {
      CommitMore(s.commits, claim, t);
    }
  }

  lemma IssueStaysSound(s: State, user: nat, purpose: Purpose, secret: string, now: int, c: Config, db: Db)
    requires TokensAreSound(s) && db.tokens == Issued(s.db.tokens, user, purpose, secret, now, c)
    ensures TokensAreSound(s.(db := db))
  {
    IssuedStaysSingle(s.db.tokens, user, purpose, secret, now, c);
    NoCommitYet(s.commits, |s.db.tokens|);
  }

  /** The operation issues a token. */
  predicate Issues(s: State, op: Op, c: Config) {
    (op.Provision? && Attempt(s.db, op, c).Some?) || (TaskOf(s, op).Reset? && Performed(s, op, c).Some?)
  }

  lemma IssuingStaysSound(s: State, op: Op, c: Config)
    requires TokensAreSound(s) && Issues(s, op, c)
    ensures TokensAreSound(Step(s, op, c))
  {
    var after := Step(s, op, c).db;
    if op.Provision? {
      IssueStaysSound(s, |s.db.users|, ACTIVATE_ACCOUNT, op.secret, op.now, c, after);
    } else {
      IssueStaysSound(s, TaskOf(s, op).user, TaskOf(s, op).purpose, op.secret, op.now, c, after);
    }
  }

  lemma OtherwiseSameTokens(s: State, op: Op, c: Config)
    requires !Issues(s, op, c) && !Commits(s, op)
    ensures Step(s, op, c).db.tokens == s.db.tokens && Step(s, op, c).commits == s.commits
  {
  }

  lemma StepStaysSound(s: State, op: Op, c: Config)
    requires TokensAreSound(s)
    ensures TokensAreSound(Step(s, op, c))
  {
    if Commits(s, op) {
      ConsumeStaysSound(s, op, c);
    } else if Issues(s, op, c) {
      IssuingStaysSound(s, op, c);
    } else {
      OtherwiseSameTokens(s, op, c);
    }
  }

  /** In every run, a token is committed as consumed at most once and for its own purpose, and
      at most one token per user and purpose is live. */
  lemma {:induction false} EveryRunIsSound(ops: seq<Op>, c: Config)
    ensures TokensAreSound(Run(START, ops, c))
  {
    if ops != [] {
      EveryRunIsSound(ops[..|ops| - 1], c);
      StepStaysSound(Run(START, ops[..|ops| - 1], c), ops[|ops| - 1], c);
    }
  }

  /** If every session was opened in time, a session that resolves belongs to a user who could
      log in now, or is about to be revoked. */
  lemma ResolvedUserMayLogIn(ops: seq<Op>, secret: string, now: int, c: Config)
    requires OpenedInTime(ops, c) && Resolved(Run(START, ops, c).db, secret, now, c).Some?
    ensures var s := Run(START, ops, c); Settled(s, s.db.sessions[ValidSession(s.db, secret, now)].user)
  {
    EveryRunIsSafeIff(ops, c);
  }

  // ----- a revoked session is over -----

  lemma {:induction false} SameSecrets(a: seq<Session>, b: seq<Session>, secret: string)
    requires |a| == |b| && forall i :: 0 <= i < |a| ==> a[i].secret == b[i].secret
    ensures FindSession(a, secret) == FindSession(b, secret)
  {
    if a != [] {
      SameSecrets(a[..|a| - 1], b[..|b| - 1], secret);
    }
  }

  /** The session with this secret has been revoked. */
  predicate Over(db: Db, secret: string) {
    FindSession(db.sessions, secret) >= 0 && db.sessions[FindSession(db.sessions, secret)].revoked
  }

  lemma MoreSessions(sessions: seq<Session>, session: Session, secret: string)
    requires session.secret != secret
    ensures FindSession(sessions + [session], secret) == FindSession(sessions, secret)
  {
    Seqs.DropLast(sessions, session);
  }

  lemma SessionsKeepSecrets(before: Db, after: Db, secret: string)
    requires |after.sessions| == |before.sessions| && Over(before, secret)
    requires forall i :: 0 <= i < |before.sessions| ==>
      && after.sessions[i].secret == before.sessions[i].secret
      && (before.sessions[i].revoked ==> after.sessions[i].revoked)
    ensures Over(after, secret)
  {
    SameSecrets(before.sessions, after.sessions, secret);
  }

  lemma OpenStaysOver(s: State, op: Op, c: Config, secret: string)
    requires Over(s.db, secret) && Opens(s, op, c)
    ensures Over(Step(s, op, c).db, secret)
  {
    var after := Step(s, op, c).db;
    MoreSessions(s.db.sessions, after.sessions[|s.db.sessions|], secret);
  }

  lemma StepStaysOver(s: State, op: Op, c: Config, secret: string)
    requires Over(s.db, secret)
    ensures Over(Step(s, op, c).db, secret)
  {
    if Opens(s, op, c) {
      OpenStaysOver(s, op, c, secret);
    } else {
      OnlyOpensAdd(s, op, c);
      forall i | 0 <= i < |s.db.sessions|
        ensures Step(s, op, c).db.sessions[i].secret == s.db.sessions[i].secret
        ensures s.db.sessions[i].revoked ==> Step(s, op, c).db.sessions[i].revoked
      {
        SessionAfter(s, op, c, i);
      }
      SessionsKeepSecrets(s.db, Step(s, op, c).db, secret);
    }
  }

  /** Once revoked, a session is never valid again, whatever is done and whenever it is tried. */
  lemma {:induction false} RevokedSessionIsOver(s: State, ops: seq<Op>, c: Config, secret: string, now: int)
    requires Over(s.db, secret)
    ensures Over(Run(s, ops, c).db, secret) && ValidSession(Run(s, ops, c).db, secret, now) == -1
  {
    if ops != [] {
      RevokedSessionIsOver(s, ops[..|ops| - 1], c, secret, now);
      StepStaysOver(Run(s, ops[..|ops| - 1], c), ops[|ops| - 1], c, secret);
    }
  }

  /** Logging out ends the session: from then on its secret resolves in no run. */
  lemma LogoutEndsTheSession(s: State, secret: string, now: int, ops: seq<Op>, later: int, c: Config)
    requires ValidSession(s.db, secret, now) >= 0
    ensures Resolved(Run(Step(s, Logout(secret, now), c), ops, c).db, secret, later, c).None?
  {
    var out := Step(s, Logout(secret, now), c);
    SameSecrets(s.db.sessions, out.db.sessions, secret);
    RevokedSessionIsOver(out, ops, c, secret, later);
  }

  /** A password change ends every session of the user but the one it was made from, whatever
      happened since its check. */
  lemma PasswordChangeEndsOtherSessions(s: State, k: nat, user: nat, session: nat, password: string, other: string,
                                        secret: string, ops: seq<Op>, now: int, later: int, c: Config)
    requires k < |s.tasks| && s.tasks[k] == Renew(user, session, password) && user < |s.db.users|
    requires FindSession(s.db.sessions, other) >= 0 && FindSession(s.db.sessions, other) != session
    requires s.db.sessions[FindSession(s.db.sessions, other)].user == user
    ensures var after := Step(s, Apply(k), c);
            && after.db.users[user].password == Some(password)
            && Resolved(Run(after, ops, c).db, other, later, c).None?
            && (ValidSession(s.db, secret, now) == session ==> ValidSession(after.db, secret, now) == session)
  {
    var after := Step(s, Apply(k), c);
    SameSecrets(s.db.sessions, after.db.sessions, other);
    SameSecrets(s.db.sessions, after.db.sessions, secret);
    RevokedSessionIsOver(after, ops, c, other, later);
  }
}
