/** Accounts, sessions and one-time credential tokens: src/zglab_rag/auth/identity.py,
    session.py and the tables of repositories.py.

    A row's id is its index.  A hash stands for what it was made of: password and token hashes
    are equal exactly when the texts are.  User names are already normalized. */
module Identity {
  import opened Options

  datatype Status = PENDING | ACTIVE | DISABLED

  datatype Credential = VALID | RESET_REQUIRED

  datatype Purpose = ACTIVATE_ACCOUNT | RESET_PASSWORD

  datatype User = User(name: string, status: Status, credential: Credential, password: Option<string>)

  datatype Session =
    Session(user: nat, secret: string, idleExpires: int, absoluteExpires: int, revoked: bool)

  datatype Token =
    Token(user: nat, purpose: Purpose, secret: string, expires: int, consumed: bool, revoked: bool)

  datatype Db = Db(users: seq<User>, sessions: seq<Session>, tokens: seq<Token>)

  datatype Config =
    Config(minLength: nat, maxLength: nat, activationTtl: int, resetTtl: int, idle: int, absolute: int)

  // ----- queries and updates of the tables -----

  function FindUser(users: seq<User>, name: string): (i: int)
    ensures -1 <= i < |users| && (i >= 0 ==> users[i].name == name)
  {
    if users == [] then -1
    else if users[|users| - 1].name == name then |users| - 1
    else FindUser(users[..|users| - 1], name)
  }

  function FindSession(sessions: seq<Session>, secret: string): (i: int)
    ensures -1 <= i < |sessions| && (i >= 0 ==> sessions[i].secret == secret)
  {
    if sessions == [] then -1
    else if sessions[|sessions| - 1].secret == secret then |sessions| - 1
    else FindSession(sessions[..|sessions| - 1], secret)
  }

  function FindToken(tokens: seq<Token>, secret: string): (i: int)
    ensures -1 <= i < |tokens| && (i >= 0 ==> tokens[i].secret == secret)
  {
    if tokens == [] then -1
    else if tokens[|tokens| - 1].secret == secret then |tokens| - 1
    else FindToken(tokens[..|tokens| - 1], secret)
  }

  /** revoke_all_for_user; `except` is a session id to spare, or -1. */
  function RevokeAll(sessions: seq<Session>, user: nat, except: int): (r: seq<Session>)
    ensures |r| == |sessions|
  {
    seq(|sessions|, i requires 0 <= i < |sessions| =>
      if sessions[i].user == user && i != except then sessions[i].(revoked := true) else sessions[i])
  }

  predicate Live(token: Token) {
    !token.consumed && !token.revoked
  }

  /** revoke_superseded */
  function Supersede(tokens: seq<Token>, user: nat, purpose: Purpose): (r: seq<Token>)
    ensures |r| == |tokens|
  {
    seq(|tokens|, i requires 0 <= i < |tokens| =>
      if tokens[i].user == user && tokens[i].purpose == purpose && Live(tokens[i]) then tokens[i].(revoked := true)
      else tokens[i])
  }

  function Ttl(purpose: Purpose, c: Config): int {
    if purpose.ACTIVATE_ACCOUNT? then c.activationTtl else c.resetTtl
  }

  /** _issue_token: a new token supersedes the live ones of its user and purpose. */
  function Issued(tokens: seq<Token>, user: nat, purpose: Purpose, secret: string, now: int, c: Config): seq<Token> {
    Supersede(tokens, user, purpose) + [Token(user, purpose, secret, now + Ttl(purpose, c), false, false)]
  }

  predicate PasswordAllowed(password: string, c: Config) {
    c.minLength <= |password| <= c.maxLength
  }

  // ----- the operations; None is an error, after which the transaction has been rolled back -----

  function Provisioned(db: Db, name: string, secret: string, now: int, c: Config): Option<Db> {
    if FindUser(db.users, name) >= 0 || FindToken(db.tokens, secret) >= 0 then None
    else
      Some(Db(db.users + [User(name, PENDING, VALID, None)], db.sessions,
              Issued(db.tokens, |db.users|, ACTIVATE_ACCOUNT, secret, now, c)))
  }

  /** _lookup_token after the password policy: the id of a usable token. */
  function LookedUp(db: Db, secret: string, purpose: Purpose, password: string, now: int, c: Config): (id: Option<nat>)
    ensures id.Some? ==> id.value < |db.tokens| && Live(db.tokens[id.value]) && db.tokens[id.value].purpose == purpose
  {
    var i := FindToken(db.tokens, secret);
    if !PasswordAllowed(password, c) || !(0 < |secret| <= 256) || i < 0 then None
    else if Live(db.tokens[i]) && db.tokens[i].purpose == purpose && now < db.tokens[i].expires then Some(i)
    else None
  }

  /** A token found by a client that has yet to consume it. */
  datatype Claim = Claim(token: nat, purpose: Purpose, password: string)

  /** The transaction of activate_account and reset_password_with_token.  Consuming checks only
      that the token has not been consumed. */
  function Consumed(db: Db, claim: Claim): Option<Db> {
    if claim.token >= |db.tokens| || db.tokens[claim.token].consumed then None
    else
      var token := db.tokens[claim.token];
      var tokens := db.tokens[claim.token := token.(consumed := true)];
      if token.user >= |db.users| then None
      else
        var user := db.users[token.user];
        match claim.purpose
        case ACTIVATE_ACCOUNT =>
          if user.status.ACTIVE? then None
          else
            var activated := User(user.name, ACTIVE, VALID, Some(claim.password));
            Some(Db(db.users[token.user := activated], db.sessions, tokens))
        case RESET_PASSWORD =>
          if !user.status.ACTIVE? then None
          else
            var renewed := user.(credential := VALID, password := Some(claim.password));
            Some(Db(db.users[token.user := renewed], RevokeAll(db.sessions, token.user, -1), tokens))
  }

  /** A reset of a user who never had a password issues another activation token. */
  function ResetPurpose(user: User): Purpose {
    if user.status.PENDING? then ACTIVATE_ACCOUNT else RESET_PASSWORD
  }

  /** The transaction of admin_reset_password, for a user and a purpose read before. */
  function ResetFor(db: Db, user: nat, purpose: Purpose, secret: string, now: int, c: Config): Option<Db> {
    if user >= |db.users| || FindToken(db.tokens, secret) >= 0 then None
    else
      var marked := db.users[user := db.users[user].(credential := RESET_REQUIRED)];
      Some(Db(if purpose.RESET_PASSWORD? then marked else db.users, RevokeAll(db.sessions, user, -1),
              Issued(db.tokens, user, purpose, secret, now, c)))
  }

  /** A reset during which nothing else happens. */
  function AdminReset(db: Db, name: string, secret: string, now: int, c: Config): Option<Db> {
    var i := FindUser(db.users, name);
    if i < 0 then None else ResetFor(db, i, ResetPurpose(db.users[i]), secret, now, c)
  }

  /** The user that set_enabled may change, as it is read. */
  function Manageable(db: Db, name: string, enabled: bool): (id: Option<nat>)
    ensures id.Some? ==> id.value < |db.users|
  {
    var i := FindUser(db.users, name);
    if i < 0 || (enabled && !db.users[i].status.DISABLED?) then None else Some(i)
  }

  function StatusSet(db: Db, user: nat, status: Status): Db {
    if user >= |db.users| then db else db.(users := db.users[user := db.users[user].(status := status)])
  }

  function WithoutSessions(db: Db, user: nat): Db {
    db.(sessions := RevokeAll(db.sessions, user, -1))
  }

  /** set_enabled with nothing between its statements. */
  function Enabled(db: Db, name: string, enabled: bool): Option<Db> {
    var id := Manageable(db, name, enabled);
    if id.None? then None
    else if enabled then Some(StatusSet(db, id.value, ACTIVE))
    else Some(WithoutSessions(StatusSet(db, id.value, DISABLED), id.value))
  }

  function SessionsRevoked(db: Db, name: string): Option<Db> {
    var i := FindUser(db.users, name);
    if i < 0 then None else Some(WithoutSessions(db, i))
  }

  /** The checks of a login, made on the user as it is read: the id of a user that passes. */
  function Checked(db: Db, name: string, password: string): (id: Option<nat>)
    ensures id.Some? ==> id.value < |db.users| && MayHaveSessions(db.users[id.value])
  {
    var i := FindUser(db.users, name);
    if i >= 0 && db.users[i].password == Some(password) && MayHaveSessions(db.users[i]) then Some(i) else None
  }

  predicate MayHaveSessions(user: User) {
    user.status.ACTIVE? && user.credential.VALID?
  }

  /** The insertion of a session, a later statement; `secret` is the fresh session token. */
  function Opened(db: Db, user: nat, secret: string, now: int, c: Config): Option<Db> {
    if FindSession(db.sessions, secret) >= 0 then None
    else Some(db.(sessions := db.sessions + [Session(user, secret, now + c.idle, now + c.absolute, false)]))
  }

  /** A login during which nothing else happens. */
  function LoggedIn(db: Db, name: string, password: string, secret: string, now: int, c: Config): Option<Db> {
    var user := Checked(db, name, password);
    if user.None? then None else Opened(db, user.value, secret, now, c)
  }

  /** _find_valid_session, or -1 */
  function ValidSession(db: Db, secret: string, now: int): (i: int)
    ensures -1 <= i < |db.sessions| && (i >= 0 ==> !db.sessions[i].revoked)
  {
    var i := FindSession(db.sessions, secret);
    if 0 < |secret| <= 256 && i >= 0 && !db.sessions[i].revoked
       && now < db.sessions[i].idleExpires && now < db.sessions[i].absoluteExpires
    then i else -1
  }

  function LoggedOut(db: Db, secret: string, now: int): Option<Db> {
    var i := ValidSession(db, secret, now);
    if i < 0 then Some(db) else Some(db.(sessions := db.sessions[i := db.sessions[i].(revoked := true)]))
  }

  /** resolve_session: the session stays, its idle limit moves. */
  function Resolved(db: Db, secret: string, now: int, c: Config): Option<Db> {
    var i := ValidSession(db, secret, now);
    if i < 0 || db.sessions[i].user >= |db.users| || !db.users[db.sessions[i].user].status.ACTIVE? then None
    else Some(db.(sessions := db.sessions[i := db.sessions[i].(idleExpires := now + c.idle)]))
  }

  /** The checks of change_password, made on the user as it is read after the session resolved. */
  predicate MayChange(db: Db, user: nat, current: string, password: string, c: Config) {
    user < |db.users| && db.users[user].password == Some(current) && PasswordAllowed(password, c)
  }

  /** The transaction of change_password: the session it was made from is spared. */
  function Renewed(db: Db, user: nat, session: nat, password: string): Db {
    if user >= |db.users| then db
    else
      Db(db.users[user := db.users[user].(password := Some(password))], RevokeAll(db.sessions, user, session),
         db.tokens)
  }

  /** change_password with nothing between its statements. */
  function PasswordChanged(db: Db, secret: string, current: string, password: string, now: int, c: Config): Option<Db> {
    var i := ValidSession(db, secret, now);
    var touched := Resolved(db, secret, now, c);
    if touched.None? then None
    else if !MayChange(touched.value, db.sessions[i].user, current, password, c) then touched
    else Some(Renewed(touched.value, db.sessions[i].user, i, password))
  }

  /** The tables, updated statement by statement inside a transaction that an error rolls back. */
  class AuthDatabase {
    const config: Config
    var users: seq<User>
    var sessions: seq<Session>
    var tokens: seq<Token>

    function View(): Db
      reads this
    {
      Db(users, sessions, tokens)
    }

    constructor (config: Config)
      ensures this.config == config && View() == Db([], [], [])
    {
      this.config, users, sessions, tokens := config, [], [], [];
    }

    method Rollback(saved: Db)
      modifies this
      ensures View() == saved
    {
      users, sessions, tokens := saved.users, saved.sessions, saved.tokens;
    }

    /** Supersedes the live tokens and inserts the new one, unless its hash is already there. */
    method IssueToken(user: nat, purpose: Purpose, secret: string, now: int) returns (ok: bool)
      modifies `tokens
      ensures ok <==> FindToken(old(tokens), secret) < 0
      ensures ok ==> tokens == Issued(old(tokens), user, purpose, secret, now, config)
    {
      ok := FindToken(tokens, secret) < 0;
      tokens := Supersede(tokens, user, purpose);
      if ok {
        tokens := tokens + [Token(user, purpose, secret, now + Ttl(purpose, config), false, false)];
      }
    }

    method ProvisionUser(name: string, secret: string, now: int) returns (ok: bool)
      modifies this
      ensures ok <==> Provisioned(old(View()), name, secret, now, config).Some?
      ensures View() == if ok then Provisioned(old(View()), name, secret, now, config).value else old(View())
    {
      var saved := View();
      if FindUser(users, name) >= 0 {
        return false;
      }
      var id := |users|;
      users := users + [User(name, PENDING, VALID, None)];
      ok := IssueToken(id, ACTIVATE_ACCOUNT, secret, now);
      if !ok {
        Rollback(saved);
      }
    }

    /** _consume_token_atomic */
    method ConsumeToken(id: nat) returns (ok: bool)
      requires id < |tokens|
      modifies `tokens
      ensures ok <==> !old(tokens)[id].consumed
      ensures tokens == if ok then old(tokens)[id := old(tokens)[id].(consumed := true)] else old(tokens)
    {
      ok := !tokens[id].consumed;
      if ok {
        tokens := tokens[id := tokens[id].(consumed := true)];
      }
    }

    /** The transaction of activate_account, for a claim found by `_lookup_token`. */
    method ActivateAccount(claim: Claim) returns (ok: bool)
      requires claim.token < |tokens| && claim.purpose.ACTIVATE_ACCOUNT?
      modifies this
      ensures ok <==> Consumed(old(View()), claim).Some?
      ensures View() == if ok then Consumed(old(View()), claim).value else old(View())
    {
      var saved := View();
      ok := ConsumeToken(claim.token);
      if !ok {
        return;
      }
      var u := tokens[claim.token].user;
      if u >= |users| || users[u].status.ACTIVE? {
        Rollback(saved);
        return false;
      }
      users := users[u := users[u].(password := Some(claim.password))];
      users := users[u := users[u].(credential := VALID)];
      users := users[u := users[u].(status := ACTIVE)];
    }

    /** The transaction of reset_password_with_token. */
    method ResetPasswordWithToken(claim: Claim) returns (ok: bool)
      requires claim.token < |tokens| && claim.purpose.RESET_PASSWORD?
      modifies this
      ensures ok <==> Consumed(old(View()), claim).Some?
      ensures View() == if ok then Consumed(old(View()), claim).value else old(View())
    {
      var saved := View();
      ok := ConsumeToken(claim.token);
      if !ok {
        return;
      }
      var u := tokens[claim.token].user;
      if u >= |users| || !users[u].status.ACTIVE? {
        Rollback(saved);
        return false;
      }
      users := users[u := users[u].(password := Some(claim.password))];
      users := users[u := users[u].(credential := VALID)];
      sessions := RevokeAll(sessions, u, -1);
    }

    /** The part of a reset before the transaction. */
    method FindForReset(name: string) returns (found: Option<(nat, Purpose)>)
      ensures var i := FindUser(users, name);
              found == if i < 0 then None else Some((i, ResetPurpose(users[i])))
    {
      var i := FindUser(users, name);
      if i < 0 {
        return None;
      }
      return Some((i, if users[i].status == PENDING then ACTIVATE_ACCOUNT else RESET_PASSWORD));
    }

    method ResetTransaction(user: nat, purpose: Purpose, secret: string, now: int) returns (ok: bool)
      requires user < |users|
      modifies this
      ensures ok <==> ResetFor(old(View()), user, purpose, secret, now, config).Some?
      ensures View() == if ok then ResetFor(old(View()), user, purpose, secret, now, config).value else old(View())
    {
      var saved := View();
      sessions := RevokeAll(sessions, user, -1);
      if purpose == RESET_PASSWORD {
        users := users[user := users[user].(credential := RESET_REQUIRED)];
      }
      ok := IssueToken(user, purpose, secret, now);
      if !ok {
        Rollback(saved);
      }
    }

    method AdminResetPassword(name: string, secret: string, now: int) returns (ok: bool)
      modifies this
      ensures ok <==> AdminReset(old(View()), name, secret, now, config).Some?
      ensures View() == if ok then AdminReset(old(View()), name, secret, now, config).value else old(View())
    {
      var found := FindForReset(name);
      if found.None? {
        return false;
      }
      ok := ResetTransaction(found.value.0, found.value.1, secret, now);
    }

    method FindToManage(name: string, enabled: bool) returns (user: Option<nat>)
      ensures user == Manageable(View(), name, enabled)
    {
      var i := FindUser(users, name);
      if i < 0 {
        return None;
      }
      if enabled && users[i].status != DISABLED {
        return None;
      }
      return Some(i);
    }

    method SetStatus(user: nat, status: Status)
      requires user < |users|
      modifies `users
      ensures View() == StatusSet(old(View()), user, status)
    {
      users := users[user := users[user].(status := status)];
    }

    method RevokeAllForUser(user: nat)
      modifies `sessions
      ensures View() == WithoutSessions(old(View()), user)
    {
      sessions := RevokeAll(sessions, user, -1);
    }

    method SetEnabled(name: string, enabled: bool) returns (ok: bool)
      modifies this
      ensures ok <==> Enabled(old(View()), name, enabled).Some?
      ensures View() == if ok then Enabled(old(View()), name, enabled).value else old(View())
    {
      var user := FindToManage(name, enabled);
      if user.None? {
        return false;
      }
      if enabled {
        SetStatus(user.value, ACTIVE);
      } else {
        SetStatus(user.value, DISABLED);
        RevokeAllForUser(user.value);
      }
      return true;
    }

    /** The part of a login before the session is created. */
    method CheckLogin(name: string, password: string) returns (user: Option<nat>)
      ensures user == Checked(View(), name, password)
    {
      var i := FindUser(users, name);
      if i < 0 || users[i].password != Some(password) {
        return None;
      }
      if users[i].credential != VALID {
        return None;
      }
      if users[i].status != ACTIVE {
        return None;
      }
      return Some(i);
    }

    method CreateSession(user: nat, secret: string, now: int) returns (ok: bool)
      modifies `sessions
      ensures ok <==> Opened(old(View()), user, secret, now, config).Some?
      ensures View() == if ok then Opened(old(View()), user, secret, now, config).value else old(View())
    {
      if FindSession(sessions, secret) >= 0 {
        return false;
      }
      sessions := sessions + [Session(user, secret, now + config.idle, now + config.absolute, false)];
      return true;
    }

    method Login(name: string, password: string, secret: string, now: int) returns (ok: bool)
      modifies this
      ensures ok <==> LoggedIn(old(View()), name, password, secret, now, config).Some?
      ensures View() == if ok then LoggedIn(old(View()), name, password, secret, now, config).value else old(View())
    {
      var user := CheckLogin(name, password);
      if user.None? {
        return false;
      }
      ok := CreateSession(user.value, secret, now);
    }

    method ResolveSession(secret: string, now: int) returns (id: int)
      modifies this
      ensures id >= 0 <==> Resolved(old(View()), secret, now, config).Some?
      ensures id >= 0 ==> id == ValidSession(old(View()), secret, now)
      ensures View() == if id >= 0 then Resolved(old(View()), secret, now, config).value else old(View())
    {
      id := ValidSession(View(), secret, now);
      if id < 0 || sessions[id].user >= |users| || users[sessions[id].user].status != ACTIVE {
        return -1;
      }
      sessions := sessions[id := sessions[id].(idleExpires := now + config.idle)];
    }

    /** The part of a password change between the resolution of the session and the transaction. */
    method CheckChange(user: nat, current: string, password: string) returns (ok: bool)
      ensures ok <==> MayChange(View(), user, current, password, config)
    {
      if user >= |users| || users[user].password == None {
        return false;
      }
      if users[user].password != Some(current) {
        return false;
      }
      ok := PasswordAllowed(password, config);
    }

    method RenewPassword(user: nat, session: nat, password: string)
      requires user < |users|
      modifies this
      ensures View() == Renewed(old(View()), user, session, password)
    {
      users := users[user := users[user].(password := Some(password))];
      sessions := RevokeAll(sessions, user, session);
    }

    method ChangePassword(secret: string, current: string, password: string, now: int) returns (ok: bool)
      modifies this
      ensures var after := PasswordChanged(old(View()), secret, current, password, now, config);
              View() == if after.Some? then after.value else old(View())
      ensures ok <==>
        && Resolved(old(View()), secret, now, config).Some?
        && MayChange(old(View()), old(sessions)[ValidSession(old(View()), secret, now)].user, current, password, config)
    {
      var id := ResolveSession(secret, now);
      if id < 0 {
        return false;
      }
      var user := sessions[id].user;
      ok := CheckChange(user, current, password);
      if ok {
        RenewPassword(user, id, password);
      }
    }
  }
}
