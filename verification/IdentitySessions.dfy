/** When a session resolves, with its times read off the operations of the run. */
module IdentitySessions {
  import opened Options
  import opened Identity
  import opened IdentityLaws

  /** The time session `i` was opened at. */
  function OpenedAt(ops: seq<Op>, i: nat, c: Config): int {
    if ops == [] then 0
    else
      var front, last := ops[..|ops| - 1], ops[|ops| - 1];
      if i < |Run(START, front, c).db.sessions| then OpenedAt(front, i, c)
      else if last.Open? then last.now
      else 0
  }

  /** The last time session `i` was opened or resolved. */
  function TouchedAt(ops: seq<Op>, i: nat, c: Config): int
    decreases |ops|, 0
  {
    if ops == [] then 0
    else
      var front, last := ops[..|ops| - 1], ops[|ops| - 1];
      if i >= |Run(START, front, c).db.sessions| then if last.Open? then last.now else 0
      else if (last.Resolve? || last.BeginChange?) && MayResolve(front, i, last.secret, last.now, c) then last.now
      else TouchedAt(front, i, c)
  }

  /** The secret is that of session `i`, which is unrevoked, of an ACTIVE user, and neither unused
      for as long as the idle limit nor older than the absolute one. */
  predicate MayResolve(ops: seq<Op>, i: nat, secret: string, now: int, c: Config)
    decreases |ops|, 1
  {
    var db := Run(START, ops, c).db;
    && 0 < |secret| <= 256 && FindSession(db.sessions, secret) == i && !db.sessions[i].revoked
    && db.sessions[i].user < |db.users| && db.users[db.sessions[i].user].status.ACTIVE?
    && now < TouchedAt(ops, i, c) + c.idle && now < OpenedAt(ops, i, c) + c.absolute
  }

  /** The operation resolves session `i`. */
  predicate Touches(s: State, op: Op, i: nat, c: Config) {
    && (op.Resolve? || op.BeginChange?) && Resolved(s.db, op.secret, op.now, c).Some?
    && ValidSession(s.db, op.secret, op.now) == i
  }

  /** Only a resolution moves a limit, and only the idle one. */
  lemma LimitsAfter(s: State, op: Op, i: nat, c: Config)
    requires i < |s.db.sessions|
    ensures var after := Step(s, op, c).db.sessions;
            && i < |after| && after[i].absoluteExpires == s.db.sessions[i].absoluteExpires
            && after[i].idleExpires == if Touches(s, op, i, c) then op.now + c.idle else s.db.sessions[i].idleExpires
  {
    if !op.Lookup? && !Commits(s, op) && Performed(s, op, c).Some? {
      LimitsAfterTask(s, op, i, c);
    }
  }

  lemma LimitsAfterTask(s: State, op: Op, i: nat, c: Config)
    requires i < |s.db.sessions| && Performed(s, op, c).Some?
    ensures var after := Performed(s, op, c).value.0.sessions;
            && i < |after| && after[i].absoluteExpires == s.db.sessions[i].absoluteExpires
            && after[i].idleExpires == s.db.sessions[i].idleExpires
  {
  }

  lemma NewSession(s: State, op: Op, i: nat, c: Config)
    requires |s.db.sessions| <= i < |Step(s, op, c).db.sessions|
    ensures op.Open?
    ensures Step(s, op, c).db.sessions[i].idleExpires == op.now + c.idle
    ensures Step(s, op, c).db.sessions[i].absoluteExpires == op.now + c.absolute
  {
    OnlyOpensAdd(s, op, c);
  }

  /** The limits stored with a session are those counted from the operations. */
  lemma {:induction false} LimitsAreCounted(ops: seq<Op>, i: nat, c: Config)
    requires i < |Run(START, ops, c).db.sessions|
    ensures var session := Run(START, ops, c).db.sessions[i];
            && session.idleExpires == TouchedAt(ops, i, c) + c.idle
            && session.absoluteExpires == OpenedAt(ops, i, c) + c.absolute
  {
    if ops != [] {
      var front, last := ops[..|ops| - 1], ops[|ops| - 1];
      var s := Run(START, front, c);
      if i < |s.db.sessions| {
        LimitsAreCounted(front, i, c);
        LimitsAfter(s, last, i, c);
        if last.Resolve? || last.BeginChange? {
          TouchesIff(front, s, last, i, c);
        }
      } else {
        NewSession(s, last, i, c);
      }
    }
  }

  lemma TouchesIff(ops: seq<Op>, s: State, op: Op, i: nat, c: Config)
    requires s == Run(START, ops, c) && i < |s.db.sessions| && (op.Resolve? || op.BeginChange?)
    requires s.db.sessions[i].idleExpires == TouchedAt(ops, i, c) + c.idle
    requires s.db.sessions[i].absoluteExpires == OpenedAt(ops, i, c) + c.absolute
    ensures Touches(s, op, i, c) <==> MayResolve(ops, i, op.secret, op.now, c)
  {
  }

  /** In every run a secret resolves at `now` exactly when it is of acceptable length and that of an
      unrevoked session of an ACTIVE user, which was opened or last resolved less than the idle
      limit, and opened less than the absolute limit before. */
  lemma ResolvesIff(ops: seq<Op>, secret: string, now: int, c: Config)
    ensures var db := Run(START, ops, c).db;
            Resolved(db, secret, now, c).Some?
            <==> FindSession(db.sessions, secret) >= 0
                 && MayResolve(ops, FindSession(db.sessions, secret), secret, now, c)
  {
    var db := Run(START, ops, c).db;
    if FindSession(db.sessions, secret) >= 0 {
      LimitsAreCounted(ops, FindSession(db.sessions, secret), c);
    }
  }
}
