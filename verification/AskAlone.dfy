/** A request that runs alone: the interleaving model against the handler it models. */
module AskAlone {
  import opened Options
  import opened AskLifecycle

  /** What the stores and the executor answer to the request. */
  datatype Answers = Answers(quota: Answer, persisted: Answer, accepted: bool, refundGiven: bool)

  /** The handler's next move; none once the callbacks are registered or all slots are back. */
  function HandlerMove(r: Request, a: Answers): Option<Move> {
    match r.phase
    case Entering => Some(TryMain)
    case WantExtra => Some(TryExtra)
    case WantQuota => Some(if a.quota.RAISED? then Raise else Quota(a.quota.YES?))
    case WantPersist => Some(if a.persisted.RAISED? then Raise else Persist(a.persisted.YES?))
    case WantSubmit => Some(Submit(a.accepted))
    case Refunding => Some(Refund(a.refundGiven))
    case Refused(left) => if left == [] then None else Some(Release)
    case Serving(left) => if left == [] then None else Some(Register)
    case Answered => None
    case Crashed => None
  }

  /** At most `n` moves of the handler of the only request. */
  function Alone(s: State, a: Answers, n: nat): State
    decreases n
  {
    if n == 0 || |s.requests| != 1 || HandlerMove(s.requests[0], a).None? then s
    else Alone(Step(s, 0, HandlerMove(s.requests[0], a).value), a, n - 1)
  }

  lemma {:induction false} RunFirst(s: State, first: (nat, Move), rest: seq<(nat, Move)>)
    ensures Run(s, [first] + rest) == Run(Step(s, first.0, first.1), rest)
  {
    var all := [first] + rest;
    if rest == [] {
      assert all[..|all| - 1] == [];
    } else {
      var front := rest[..|rest| - 1];
      assert all[..|all| - 1] == [first] + front && all[|all| - 1] == rest[|rest| - 1];
      RunFirst(s, first, front);
    }
  }

  /** These moves are a run. */
  lemma {:induction false} AloneIsARun(s: State, a: Answers, n: nat) returns (moves: seq<(nat, Move)>)
    ensures Run(s, moves) == Alone(s, a, n)
    decreases n
  {
    if n == 0 || |s.requests| != 1 || HandlerMove(s.requests[0], a).None? {
      moves := [];
    } else {
      var move := HandlerMove(s.requests[0], a).value;
      var rest := AloneIsARun(Step(s, 0, move), a, n - 1);
      moves := [(0, move)] + rest;
      RunFirst(s, (0, move), rest);
    }
  }

  /** A state of the request. */
  predicate At(s: State, mode: Mode, inConversation: bool, phase: Phase, task: Task, charge: Charge) {
    && |s.requests| == 1 && s.requests[0].mode == mode && s.requests[0].inConversation == inConversation
    && s.requests[0].phase == phase && s.requests[0].task == task && s.requests[0].charge == charge
  }

  /** The free slots once `guards` have been taken, or given back. */
  function Less(free: map<Guard, int>, guards: seq<Guard>): map<Guard, int> {
    map g | g in free :: free[g] - Count(guards, g)
  }

  function More(free: map<Guard, int>, guards: seq<Guard>): map<Guard, int> {
    map g | g in free :: free[g] + Count(guards, g)
  }

  ghost predicate AllGuards(free: map<Guard, int>) {
    forall g: Guard :: g in free
  }

  lemma OneMove(s: State, a: Answers, n: nat, m: nat, move: Move)
    requires m == n + 1 && |s.requests| == 1 && HandlerMove(s.requests[0], a) == Some(move)
    ensures Alone(s, a, m) == Alone(Step(s, 0, move), a, n)
  {
  }

  lemma CountOne(g: Guard, rest: seq<Guard>, x: Guard)
    ensures Count([g] + rest, x) == Count(rest, x) + if g == x then 1 else 0
  {
    CountFirst([g] + rest, x);
  }

  lemma NextMore(free: map<Guard, int>, g: Guard, rest: seq<Guard>)
    requires g in free
    ensures More(free[g := free[g] + 1], rest) == More(free, [g] + rest)
  {
    forall x | x in free ensures Count([g] + rest, x) == Count(rest, x) + if g == x then 1 else 0 {
      CountOne(g, rest, x);
    }
  }

  /** Refused, the handler gives back what is left. */
  lemma {:induction false} Refusing(s: State, a: Answers, n: nat, mode: Mode, inConversation: bool, left: seq<Guard>,
                                    task: Task, charge: Charge)
    requires At(s, mode, inConversation, Refused(left), task, charge) && |left| <= n && AllGuards(s.free)
    ensures At(Alone(s, a, n), mode, inConversation, Refused([]), task, charge)
    ensures Alone(s, a, n).free == More(s.free, left)
    decreases n
  {
    if left != [] {
      var next := Step(s, 0, Release);
      OneMove(s, a, n - 1, n, Release);
      Refusing(next, a, n - 1, mode, inConversation, left[1..], task, charge);
      NextMore(s.free, left[0], left[1..]);
      assert [left[0]] + left[1..] == left;
    } else {
      assert More(s.free, []) == s.free;
    }
  }

  /** Accepted, it registers what is left with the running task. */
  lemma {:induction false} Registering(s: State, a: Answers, n: nat, mode: Mode, inConversation: bool,
                                       left: seq<Guard>, callbacks: seq<Guard>, charge: Charge)
    requires At(s, mode, inConversation, Serving(left), Running(callbacks), charge) && |left| <= n
    ensures At(Alone(s, a, n), mode, inConversation, Serving([]), Running(callbacks + left), charge)
    ensures Alone(s, a, n).free == s.free
    decreases n
  {
    if left != [] {
      var next := Step(s, 0, Register);
      OneMove(s, a, n - 1, n, Register);
      Registering(next, a, n - 1, mode, inConversation, left[1..], callbacks + [left[0]], charge);
      assert callbacks + [left[0]] + left[1..] == callbacks + left;
    } else {
      assert callbacks + [] == callbacks;
    }
  }

  /** From the refund or the submission on. */
  lemma Refunded(s: State, a: Answers, n: nat, m: nat, mode: Mode, inConversation: bool)
    requires At(s, mode, inConversation, Refunding, Absent, Charged) && AllGuards(s.free) && 2 <= n && m == n + 1
    ensures At(Alone(s, a, m), mode, inConversation, Refused([]), Absent,
               if a.refundGiven then Uncharged else Unreturned)
    ensures Alone(s, a, m).free == More(s.free, Guards(mode))
  {
    OneMove(s, a, n, m, Refund(a.refundGiven));
    Refusing(Step(s, 0, Refund(a.refundGiven)), a, n, mode, inConversation, Guards(mode), Absent,
             if a.refundGiven then Uncharged else Unreturned);
  }

  /** How the request ends from the submission on. */
  ghost predicate EndsSubmitted(s: State, end: State, a: Answers, mode: Mode, inConversation: bool, accepted: bool) {
    if accepted then
      At(end, mode, inConversation, Serving([]), Running(Guards(mode)), Charged) && end.free == s.free
    else
      && At(end, mode, inConversation, Refused([]), Absent, if a.refundGiven then Uncharged else Unreturned)
      && end.free == More(s.free, Guards(mode))
  }

  lemma Submitting(s: State, a: Answers, n: nat, m: nat, mode: Mode, inConversation: bool)
    requires At(s, mode, inConversation, WantSubmit, Absent, Charged) && AllGuards(s.free) && 3 <= n && m == n + 1
    ensures EndsSubmitted(s, Alone(s, a, m), a, mode, inConversation, a.accepted)
  {
    var next := Step(s, 0, Submit(a.accepted));
    OneMove(s, a, n, m, Submit(a.accepted));
    if a.accepted {
      Registering(next, a, n, mode, inConversation, Guards(mode), [], Charged);
      assert [] + Guards(mode) == Guards(mode);
    } else {
      Refunded(next, a, n - 1, n, mode, inConversation);
    }
  }

  lemma Persisting(s: State, a: Answers, n: nat, m: nat, mode: Mode)
    requires At(s, mode, true, WantPersist, Absent, Charged) && AllGuards(s.free) && 4 <= n && m == n + 1
    ensures if a.persisted.RAISED? then At(Alone(s, a, m), mode, true, Crashed, Absent, Charged)
                                        && Alone(s, a, m).free == s.free
            else EndsSubmitted(s, Alone(s, a, m), a, mode, true, a.persisted.YES? && a.accepted)
  {
    if a.persisted.RAISED? {
      OneMove(s, a, n, m, Raise);
    } else {
      var next := Step(s, 0, Persist(a.persisted.YES?));
      OneMove(s, a, n, m, Persist(a.persisted.YES?));
      if a.persisted.YES? {
        Submitting(next, a, n - 1, n, mode, true);
      } else {
        Refunded(next, a, n - 1, n, mode, true);
      }
    }
  }

  /** With all slots taken, the quota and the message store decide. */
  ghost predicate EndsServed(s: State, end: State, a: Answers, mode: Mode, inConversation: bool) {
    if a.quota.RAISED? || (a.quota.YES? && inConversation && a.persisted.RAISED?) then
      && At(end, mode, inConversation, Crashed, Absent, if a.quota.RAISED? then Uncharged else Charged)
      && end.free == s.free
    else if a.quota.NO? then
      At(end, mode, inConversation, Refused([]), Absent, Uncharged) && end.free == More(s.free, Guards(mode))
    else EndsSubmitted(s, end, a, mode, inConversation, (inConversation ==> a.persisted.YES?) && a.accepted)
  }

  lemma WithSlots(s: State, a: Answers, n: nat, m: nat, mode: Mode, inConversation: bool)
    requires At(s, mode, inConversation, WantQuota, Absent, Uncharged) && AllGuards(s.free) && 5 <= n && m == n + 1
    ensures EndsServed(s, Alone(s, a, m), a, mode, inConversation)
  {
    if a.quota.RAISED? {
      OneMove(s, a, n, m, Raise);
    } else {
      var next := Step(s, 0, Quota(a.quota.YES?));
      OneMove(s, a, n, m, Quota(a.quota.YES?));
      if a.quota.NO? {
        Refusing(next, a, n, mode, inConversation, Guards(mode), Absent, Uncharged);
      } else if inConversation {
        Persisting(next, a, n - 1, n, mode);
      } else {
        Submitting(next, a, n - 1, n, mode, inConversation);
      }
    }
  }

  /** Every guard the mode needs has a free slot. */
  predicate HasRoom(free: map<Guard, int>, mode: Mode) {
    forall i :: 0 <= i < |Guards(mode)| ==> Guards(mode)[i] in free && free[Guards(mode)[i]] > 0
  }

  lemma TakeMain(s: State, a: Answers, n: nat, m: nat, mode: Mode, inConversation: bool)
    requires At(s, mode, inConversation, Entering, Absent, Uncharged) && AllGuards(s.free) && m == n + 1
    ensures s.free[MAIN] > 0 ==>
      && Alone(s, a, m) == Alone(Step(s, 0, TryMain), a, n)
      && At(Step(s, 0, TryMain), mode, inConversation, if |Guards(mode)| == 2 then WantExtra else WantQuota, Absent,
            Uncharged)
      && Step(s, 0, TryMain).free == Less(s.free, [MAIN])
    ensures s.free[MAIN] <= 0 ==>
      At(Alone(s, a, m), mode, inConversation, Refused([]), Absent, Uncharged) && Alone(s, a, m).free == s.free
  {
    OneMove(s, a, n, m, TryMain);
    LessOne(s.free, MAIN);
  }

  lemma LessOne(free: map<Guard, int>, g: Guard)
    requires g in free
    ensures Less(free, [g]) == free[g := free[g] - 1]
  {
    forall x | x in free ensures Count([g], x) == if g == x then 1 else 0 {
      assert [g] + [] == [g];
      CountOne(g, [], x);
    }
  }

  lemma TakeExtra(s: State, a: Answers, n: nat, m: nat, mode: Mode, inConversation: bool, extra: Guard)
    requires At(s, mode, inConversation, WantExtra, Absent, Uncharged) && AllGuards(s.free) && 1 <= n && m == n + 1
    requires Guards(mode) == [MAIN, extra]
    ensures s.free[extra] > 0 ==>
      && Alone(s, a, m) == Alone(Step(s, 0, TryExtra), a, n)
      && At(Step(s, 0, TryExtra), mode, inConversation, WantQuota, Absent, Uncharged)
      && Step(s, 0, TryExtra).free == Less(s.free, [extra])
    ensures s.free[extra] <= 0 ==>
      && At(Alone(s, a, m), mode, inConversation, Refused([]), Absent, Uncharged)
      && Alone(s, a, m).free == More(s.free, [MAIN])
  {
    OneMove(s, a, n, m, TryExtra);
    LessOne(s.free, extra);
    if s.free[extra] <= 0 {
      Refusing(Step(s, 0, TryExtra), a, n, mode, inConversation, [MAIN], Absent, Uncharged);
    }
  }

  lemma LessThenMore(free: map<Guard, int>, guards: seq<Guard>)
    ensures More(Less(free, guards), guards) == free
  {
  }

  lemma LessTwice(free: map<Guard, int>, g: Guard, extra: Guard)
    ensures Less(Less(free, [g]), [extra]) == Less(free, [g, extra])
  {
    assert [g] + [extra] == [g, extra] && [extra] + [] == [extra];
    forall x | x in free ensures Count([g, extra], x) == Count([g], x) + Count([extra], x) {
      CountOne(g, [extra], x);
      CountOne(g, [], x);
      assert [g] + [] == [g];
    }
  }

  lemma HasRoomIff(free: map<Guard, int>, mode: Mode)
    requires AllGuards(free)
    ensures |Guards(mode)| == 1 ==> (HasRoom(free, mode) <==> free[Guards(mode)[0]] > 0)
    ensures |Guards(mode)| == 2 ==> (HasRoom(free, mode) <==> free[Guards(mode)[0]] > 0 && free[Guards(mode)[1]] > 0)
  {
  }

  /** How the handler leaves the request: served or cut short with its slots taken, or refused. */
  ghost predicate EndsAlone(free: map<Guard, int>, end: State, a: Answers, mode: Mode, inConversation: bool) {
    var s := State(Less(free, Guards(mode)), []);
    if HasRoom(free, mode) then EndsServed(s, end, a, mode, inConversation)
    else At(end, mode, inConversation, Refused([]), Absent, Uncharged) && end.free == free
  }

  lemma TakesAll(s: State, a: Answers, n: nat, mode: Mode, inConversation: bool)
    requires At(s, mode, inConversation, Entering, Absent, Uncharged) && AllGuards(s.free) && n == 15
    ensures EndsAlone(s.free, Alone(s, a, n), a, mode, inConversation)
  {
    HasRoomIff(s.free, mode);
    TakeMain(s, a, 14, n, mode, inConversation);
    if s.free[MAIN] > 0 {
      var next := Step(s, 0, TryMain);
      if |Guards(mode)| == 2 {
        var extra := Guards(mode)[1];
        assert Guards(mode) == [MAIN, extra];
        TakeExtra(next, a, 13, 14, mode, inConversation, extra);
        LessTwice(s.free, MAIN, extra);
        LessThenMore(s.free, [MAIN]);
        if next.free[extra] > 0 {
          WithSlots(Step(next, 0, TryExtra), a, 12, 13, mode, inConversation);
        }
      } else {
        assert Guards(mode) == [MAIN];
        WithSlots(next, a, 13, 14, mode, inConversation);
      }
    }
  }

  /** A request that runs alone in the interleaving model ends as the handler does: submitted, cut
      short or refused for the same answers, with the same charge, the same callbacks and the same
      free slots. */
  lemma AloneIsAsk(free: map<Guard, int>, a: Answers, mode: Mode, inConversation: bool, s: State, end: State)
    requires AllGuards(free) && s == State(free, [Request(mode, inConversation, Entering, Absent, Uncharged, [], [])])
    requires end == Alone(s, a, 15)
    ensures var room := HasRoom(free, mode);
            var submitted := room && a.quota.YES? && (inConversation ==> a.persisted.YES?) && a.accepted;
            var crashed := room && (a.quota.RAISED? || (a.quota.YES? && inConversation && a.persisted.RAISED?));
            && |end.requests| == 1
            && end.requests[0].phase == (if submitted then Serving([]) else if crashed then Crashed else Refused([]))
            && end.requests[0].charge == (if !room || !a.quota.YES? then Uncharged
                                          else if submitted || crashed then Charged
                                          else if a.refundGiven then Uncharged
                                          else Unreturned)
            && Callbacks(end.requests[0].task) == (if submitted then Guards(mode) else [])
            && end.free == if submitted || crashed then Less(free, Guards(mode)) else free
  {
    TakesAll(s, a, 15, mode, inConversation);
    LessThenMore(free, Guards(mode));
  }
}
