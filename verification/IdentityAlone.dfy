/** A request that nothing interrupts is the run of its steps: src/zglab_rag/auth/session.py and
    identity.py. */
module IdentityAlone {
  import opened Options
  import opened Identity
  import opened IdentityLaws

  /** The tables an operation leaves: those of a success, or as they were. */
  function After(db: Db, result: Option<Db>): Db {
    if result.Some? then result.value else db
  }

  /** A login: its checks, and the insertion of the session if they pass. */
  lemma LoginIsARun(s: State, name: string, password: string, secret: string, now: int, c: Config, k: nat)
    requires k == |s.tasks|
    ensures var checked := Step(s, Check(name, password), c);
            if Checked(s.db, name, password).None?
            then checked == s && LoggedIn(s.db, name, password, secret, now, c).None?
            else Step(checked, Open(k, secret, now), c).db
                 == After(s.db, LoggedIn(s.db, name, password, secret, now, c))
  {
  }

  /** A reset by an administrator: the user and the purpose are read, and the transaction follows. */
  lemma ResetIsARun(s: State, name: string, secret: string, now: int, c: Config, k: nat)
    requires k == |s.tasks|
    ensures var found := Step(s, FindForReset(name), c);
            if FindUser(s.db.users, name) < 0 then found == s && AdminReset(s.db, name, secret, now, c).None?
            else Step(found, ResetByAdmin(k, secret, now), c).db == After(s.db, AdminReset(s.db, name, secret, now, c))
  {
  }

  /** Enabling: the user is read and the status set. */
  lemma EnablingIsARun(s: State, name: string, c: Config, k: nat)
    requires k == |s.tasks|
    ensures var found := Step(s, Manage(name, true), c);
            if Manageable(s.db, name, true).None? then found == s && Enabled(s.db, name, true).None?
            else Step(found, Apply(k), c).db == After(s.db, Enabled(s.db, name, true))
  {
  }

  /** Disabling: then the sessions are revoked. */
  lemma DisablingIsARun(s: State, name: string, c: Config, k: nat)
    requires k == |s.tasks|
    ensures var found := Step(s, Manage(name, false), c);
            if Manageable(s.db, name, false).None? then found == s && Enabled(s.db, name, false).None?
            else Step(Step(found, Apply(k), c), Apply(k), c).db == After(s.db, Enabled(s.db, name, false))
  {
  }

  /** A change of password: the session resolves, the current password is checked, and the
      transaction follows if the check passes. */
  lemma ChangeIsARun(s: State, secret: string, current: string, password: string, now: int, c: Config, k: nat)
    requires k == |s.tasks|
    ensures var begun := Step(s, BeginChange(secret, now), c);
            var checked := Step(begun, CheckChange(k, current, password), c);
            if Resolved(s.db, secret, now, c).None?
            then begun == s && PasswordChanged(s.db, secret, current, password, now, c).None?
            else Step(checked, Apply(k), c).db
                 == After(s.db, PasswordChanged(s.db, secret, current, password, now, c))
  {
  }
}
