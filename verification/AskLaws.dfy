/** What every interleaving of ask requests keeps. */
module AskLaws {
  import opened AskLifecycle
  import Seqs

  // ----- conservation -----

  /** The slots of `g` held by all requests together. */
  function HeldBy(requests: seq<Request>, g: Guard): nat {
    if requests == [] then 0 else HeldBy(requests[..|requests| - 1], g) + Held(requests[|requests| - 1], g)
  }

  lemma HeldByMore(requests: seq<Request>, n: nat, g: Guard)
    requires |requests| == n + 1
    ensures HeldBy(requests, g) == HeldBy(requests[..n], g) + Held(requests[n], g)
  {
  }

  lemma {:induction false} HeldByAfter(requests: seq<Request>, i: nat, r: Request, g: Guard)
    requires i < |requests|
    ensures HeldBy(requests[i := r], g) == HeldBy(requests, g) - Held(requests[i], g) + Held(r, g)
  {
    var n, after := |requests| - 1, requests[i := r];
    HeldByMore(requests, n, g);
    HeldByMore(after, n, g);
    if i < n {
      HeldByAfter(requests[..n], i, r, g);
      assert after[..n] == requests[..n][i := r];
    } else {
      assert after[..n] == requests[..n];
    }
  }

  ghost predicate AllSound(requests: seq<Request>, g: Guard) {
    forall i :: 0 <= i < |requests| ==> Sound(requests[i]) && Balanced(requests[i], g)
  }

  /** Free slots and held slots make the capacity, and every request is sound. */
  ghost predicate Conserved(s: State, capacity: map<Guard, int>, g: Guard) {
    && g in capacity && g in s.free && s.free[g] >= 0
    && s.free[g] + HeldBy(s.requests, g) == capacity[g]
    && AllSound(s.requests, g)
  }

  lemma FreeAfter(free: map<Guard, int>, r: Request, move: Move, granted: bool, g: Guard)
    requires Enabled(r, move) && g in free && free[g] >= 0 && granted == Granted(r, move, free)
    ensures var after := NextFree(free, Wanted(r, move), granted, Returned(r, move));
            && g in after && after[g] >= 0
            && after[g] == free[g] - (if granted then Once(Wanted(r, move), g) else 0) + Once(Returned(r, move), g)
  {
  }

  lemma StepConserves(s: State, i: nat, move: Move, capacity: map<Guard, int>, g: Guard)
    requires Conserved(s, capacity, g)
    ensures Conserved(Step(s, i, move), capacity, g)
  {
    if i < |s.requests| && Enabled(s.requests[i], move) {
      var r := s.requests[i];
      var granted := Granted(r, move, s.free);
      var next := Moved(r, move, granted);
      FreeAfter(s.free, r, move, granted, g);
      HeldAfter(r, move, granted, g);
      HeldByAfter(s.requests, i, next, g);
      MovedStaysBalanced(r, move, granted, g);
      MovedStaysSound(r, move, granted);
      ReplacedStaysSound(s.requests, i, next, g);
    }
  }

  lemma ReplacedStaysSound(requests: seq<Request>, i: nat, r: Request, g: Guard)
    requires i < |requests| && AllSound(requests, g) && Sound(r) && Balanced(r, g)
    ensures AllSound(requests[i := r], g)
  {
  }

  lemma {:induction false} NothingHeldAtStart(requests: seq<Request>, g: Guard)
    requires forall r :: r in requests ==> r == Request(r.mode, r.inConversation, Entering, Absent, Uncharged, [], [])
    ensures HeldBy(requests, g) == 0
  {
    if requests != [] {
      var last := requests[|requests| - 1];
      assert last in requests;
      NothingHeldAtStart(requests[..|requests| - 1], g);
    }
  }

  /** In every run, free slots + held slots = capacity for every guard. */
  lemma {:induction false} EveryRunConserves(s: State, moves: seq<(nat, Move)>, capacity: map<Guard, int>, g: Guard)
    requires Starts(s, capacity) && g in capacity && capacity[g] >= 0
    ensures Conserved(Run(s, moves), capacity, g)
  {
    if moves == [] {
      NothingHeldAtStart(s.requests, g);
      assert forall i :: 0 <= i < |s.requests| ==> s.requests[i] in s.requests;
    } else {
      var last := moves[|moves| - 1];
      EveryRunConserves(s, moves[..|moves| - 1], capacity, g);
      StepConserves(Run(s, moves[..|moves| - 1]), last.0, last.1, capacity, g);
    }
  }

  // ----- one release for each slot, none before the generation ends -----

  /** Nothing of the request is left to run. */
  predicate Settled(r: Request) {
    r.phase == Refused([]) || r.phase.Crashed? || (r.phase.Answered? && r.task == Finished([]))
  }

  lemma TakenOnce(r: Request, g: Guard)
    requires Sound(r)
    ensures Count(r.taken, g) <= 1
  {
    CountGuards(r.mode, g);
    assert Guards(r.mode)[..0] == [] && Guards(r.mode)[..1] == [MAIN];
    assert |r.taken| == 2 ==> r.taken == Guards(r.mode);
    assert |r.taken| == 1 ==> r.taken == [MAIN];
  }

  /** In every run: a request releases nothing while its generation runs, even when its client has
      been answered, timed out or gone; no slot is released twice; and a settled request that
      did not crash has released exactly what it took. */
  lemma EachSlotIsReleasedOnce(s: State, moves: seq<(nat, Move)>, capacity: map<Guard, int>, g: Guard, i: nat)
    requires Starts(s, capacity) && g in capacity && capacity[g] >= 0 && i < |Run(s, moves).requests|
    ensures var r := Run(s, moves).requests[i];
            && (r.task.Running? ==> r.taken == Guards(r.mode) && r.released == [])
            && Count(r.released, g) <= Count(r.taken, g) <= 1
            && (Settled(r) && !r.phase.Crashed? ==> Count(r.released, g) == Count(r.taken, g))
  {
    var r := Run(s, moves).requests[i];
    EveryRunConserves(s, moves, capacity, g);
    TakenOnce(r, g);
    SettledHoldsNothing(r, g);
  }

  lemma SettledHoldsNothing(r: Request, g: Guard)
    ensures Settled(r) && !r.phase.Crashed? && Sound(r) ==> Held(r, g) == 0
  {
  }

  /** A settled request is charged exactly when its generation was submitted, unless it crashed or its
      refund failed. */
  lemma ChargedIffSubmitted(s: State, moves: seq<(nat, Move)>, capacity: map<Guard, int>, i: nat)
    requires Starts(s, capacity) && MAIN in capacity && capacity[MAIN] >= 0 && i < |Run(s, moves).requests|
    ensures var r := Run(s, moves).requests[i];
            Settled(r) && !r.phase.Crashed? && !r.charge.Unreturned? ==> (r.charge.Charged? <==> !r.task.Absent?)
  {
    EveryRunConserves(s, moves, capacity, MAIN);
  }

  // ----- when every request has settled -----

  function LostBy(requests: seq<Request>, g: Guard): nat {
    if requests == [] then 0 else LostBy(requests[..|requests| - 1], g) + Count(Lost(requests[|requests| - 1]), g)
  }

  lemma {:induction false} OnlyLostAreHeld(requests: seq<Request>, g: Guard)
    requires AllSound(requests, g) && forall r :: r in requests ==> Settled(r)
    ensures HeldBy(requests, g) == LostBy(requests, g)
  {
    if requests != [] {
      assert requests[|requests| - 1] in requests;
      OnlyLostAreHeld(requests[..|requests| - 1], g);
    }
  }

  lemma {:induction false} LostIffCrashed(requests: seq<Request>)
    ensures LostBy(requests, MAIN) == 0 <==> !SomeCrashed(requests)
  {
    if requests != [] {
      var front, last := requests[..|requests| - 1], requests[|requests| - 1];
      LostIffCrashed(front);
      CountGuards(last.mode, MAIN);
      assert requests == front + [last];
    }
  }

  lemma {:induction false} NothingLost(requests: seq<Request>, g: Guard)
    requires !SomeCrashed(requests)
    ensures LostBy(requests, g) == 0
  {
    if requests != [] {
      assert requests[|requests| - 1] in requests;
      NothingLost(requests[..|requests| - 1], g);
    }
  }

  predicate SomeCrashed(requests: seq<Request>) {
    exists r :: r in requests && r.phase.Crashed?
  }

  /** The quota or message store raises at this move. */
  predicate Raises(s: State, move: (nat, Move)) {
    move.0 < |s.requests| && move.1.Raise? && Enabled(s.requests[move.0], Raise)
  }

  predicate SomeRaise(s: State, moves: seq<(nat, Move)>) {
    moves != [] &&
    var front := moves[..|moves| - 1];
    SomeRaise(s, front) || Raises(Run(s, front), moves[|moves| - 1])
  }

  lemma CrashedAfter(s: State, i: nat, move: Move)
    ensures SomeCrashed(Step(s, i, move).requests) <==> SomeCrashed(s.requests) || Raises(s, (i, move))
  {
    if i < |s.requests| && Enabled(s.requests[i], move) {
      var after := Step(s, i, move).requests;
      assert after[i].phase.Crashed? <==> s.requests[i].phase.Crashed? || move.Raise?;
      assert after[i] in after;
      forall j | 0 <= j < |after| && j != i ensures after[j] == s.requests[j] && after[j] in after {
      }
    }
  }

  lemma {:induction false} CrashedIffRaised(s: State, moves: seq<(nat, Move)>)
    requires !SomeCrashed(s.requests)
    ensures SomeCrashed(Run(s, moves).requests) <==> SomeRaise(s, moves)
  {
    if moves != [] {
      var front, last := moves[..|moves| - 1], moves[|moves| - 1];
      CrashedIffRaised(s, front);
      CrashedAfter(Run(s, front), last.0, last.1);
    }
  }

  /** When every request has settled, all slots are free again exactly when at no move of the
      run the quota or message store raised an exception. */
  lemma AllSlotsReturnIff(s: State, moves: seq<(nat, Move)>, capacity: map<Guard, int>)
    requires Starts(s, capacity) && forall g: Guard :: g in capacity && capacity[g] >= 0
    requires forall r :: r in Run(s, moves).requests ==> Settled(r)
    ensures (forall g: Guard :: g in Run(s, moves).free && Run(s, moves).free[g] == capacity[g])
        <==> !SomeRaise(s, moves)
  {
    var end := Run(s, moves);
    CrashedIffRaised(s, moves);
    FreeWhenSettled(s, moves, capacity, MAIN);
    LostIffCrashed(end.requests);
    if !SomeCrashed(end.requests) {
      forall g: Guard ensures g in end.free && end.free[g] == capacity[g] {
        NothingLost(end.requests, g);
        FreeWhenSettled(s, moves, capacity, g);
      }
    }
  }

  /** A request takes its slots, and the quota store raises. */
  function CutShort(mode: Mode): seq<(nat, Move)> {
    [(0, TryMain)] + (if |Guards(mode)| == 2 then [(0, TryExtra)] else []) + [(0, Raise)]
  }

  lemma TwoMoves(s: State, i: nat, a: Move, b: Move)
    ensures Run(s, [(i, a)] + [(i, b)]) == Step(Step(s, i, a), i, b)
  {
    Seqs.DropLast([(i, a)], (i, b));
    assert [(i, a)][..0] == [];
    assert Run(s, [(i, a)]) == Step(Run(s, []), i, a);
  }

  lemma CutShortCrashes(s: State, capacity: map<Guard, int>, mode: Mode)
    requires Starts(s, capacity) && |s.requests| == 1 && s.requests[0].mode == mode
    requires forall g: Guard :: g in Guards(mode) ==> g in capacity && capacity[g] > 0
    ensures |Run(s, CutShort(mode)).requests| == 1
    ensures Run(s, CutShort(mode)).requests[0].phase.Crashed? && Run(s, CutShort(mode)).requests[0].mode == mode
  {
    assert s.requests[0] in s.requests && Guards(mode)[0] in Guards(mode);
    var one := Step(s, 0, TryMain);
    if |Guards(mode)| == 2 {
      assert Guards(mode)[1] in Guards(mode);
      TwoMoves(s, 0, TryMain, TryExtra);
      Seqs.DropLast([(0, TryMain)] + [(0, TryExtra)], (0, Raise));
    } else {
      TwoMoves(s, 0, TryMain, Raise);
      Seqs.AppendEmpty([(0, TryMain)]);
    }
  }

  /** One exception of the quota store loses every slot of its request for good. */
  lemma RaiseLosesSlots(s: State, capacity: map<Guard, int>, mode: Mode, g: Guard)
    requires Starts(s, capacity) && |s.requests| == 1 && s.requests[0].mode == mode
    requires forall x: Guard :: x in capacity && capacity[x] > 0
    ensures var end := Run(s, CutShort(mode));
            && (forall r :: r in end.requests ==> Settled(r))
            && g in end.free && end.free[g] == capacity[g] - if g in Guards(mode) then 1 else 0
  {
    var end := Run(s, CutShort(mode));
    CutShortCrashes(s, capacity, mode);
    assert forall r :: r in end.requests ==> r == end.requests[0];
    FreeWhenSettled(s, CutShort(mode), capacity, g);
    assert end.requests[..0] == [];
    CountGuards(mode, g);
  }

  lemma FreeWhenSettled(s: State, moves: seq<(nat, Move)>, capacity: map<Guard, int>, g: Guard)
    requires Starts(s, capacity) && g in capacity && capacity[g] >= 0
    requires forall r :: r in Run(s, moves).requests ==> Settled(r)
    ensures g in Run(s, moves).free && Run(s, moves).free[g] + LostBy(Run(s, moves).requests, g) == capacity[g]
  {
    EveryRunConserves(s, moves, capacity, g);
    OnlyLostAreHeld(Run(s, moves).requests, g);
  }

  // ----- the guards bound the running tasks -----

  predicate RunsUnder(r: Request, g: Guard) {
    r.task.Running? && g in Guards(r.mode)
  }

  function RunningUnder(requests: seq<Request>, g: Guard): nat {
    if requests == [] then 0
    else RunningUnder(requests[..|requests| - 1], g) + if RunsUnder(requests[|requests| - 1], g) then 1 else 0
  }

  lemma {:induction false} RunningHold(requests: seq<Request>, g: Guard)
    requires AllSound(requests, g)
    ensures RunningUnder(requests, g) <= HeldBy(requests, g)
  {
    if requests != [] {
      var last := requests[|requests| - 1];
      RunningHold(requests[..|requests| - 1], g);
      CountGuards(last.mode, g);
      assert Count([], g) == 0;
    }
  }

  /** At no time do more tasks run under a guard than it has slots. */
  lemma RunningTasksAreBounded(s: State, moves: seq<(nat, Move)>, capacity: map<Guard, int>, g: Guard)
    requires Starts(s, capacity) && g in capacity && capacity[g] >= 0
    ensures RunningUnder(Run(s, moves).requests, g) <= capacity[g]
  {
    EveryRunConserves(s, moves, capacity, g);
    RunningHold(Run(s, moves).requests, g);
  }

  // ----- every run ends -----

  function TaskRank(task: Task): nat {
    match task
    case Absent => 0
    case Running(callbacks) => 1 + |callbacks|
    case Finished(callbacks) => |callbacks|
  }

  function PhaseRank(phase: Phase): nat {
    match phase
    case Entering => 15
    case WantExtra => 14
    case WantQuota => 13
    case WantPersist => 12
    case WantSubmit => 11
    case Refunding => 4
    case Refused(left) => |left|
    case Serving(left) => 1 + 2 * |left|
    case Answered => 0
    case Crashed => 0
  }

  function Rank(r: Request): nat {
    PhaseRank(r.phase) + TaskRank(r.task)
  }

  function RankOf(requests: seq<Request>): nat {
    if requests == [] then 0 else RankOf(requests[..|requests| - 1]) + Rank(requests[|requests| - 1])
  }

  lemma {:induction false} RankAfter(requests: seq<Request>, i: nat, r: Request)
    requires i < |requests|
    ensures RankOf(requests[i := r]) == RankOf(requests) - Rank(requests[i]) + Rank(r)
  {
    var n := |requests| - 1;
    if i < n {
      RankAfter(requests[..n], i, r);
      assert requests[i := r][..n] == requests[..n][i := r];
    } else {
      assert requests[i := r][..n] == requests[..n];
    }
  }

  lemma MoveLowersRank(r: Request, move: Move, granted: bool)
    requires Sound(r) && Enabled(r, move)
    ensures Rank(Moved(r, move, granted)) < Rank(r)
  {
  }

  /** Every move of the run was possible when it was made. */
  predicate Possible(s: State, moves: seq<(nat, Move)>) {
    moves == [] ||
    var before, last := Run(s, moves[..|moves| - 1]), moves[|moves| - 1];
    && Possible(s, moves[..|moves| - 1])
    && last.0 < |before.requests| && Enabled(before.requests[last.0], last.1)
  }

  /** No run is longer than fifteen moves a request. */
  lemma {:induction false} EveryRunEnds(s: State, moves: seq<(nat, Move)>, capacity: map<Guard, int>)
    requires Starts(s, capacity) && MAIN in capacity && capacity[MAIN] >= 0 && Possible(s, moves)
    ensures |moves| + RankOf(Run(s, moves).requests) <= 15 * |s.requests|
    ensures |Run(s, moves).requests| == |s.requests|
  {
    if moves == [] {
      StartRank(s.requests);
    } else {
      var front, last := moves[..|moves| - 1], moves[|moves| - 1];
      var before := Run(s, front);
      EveryRunEnds(s, front, capacity);
      EveryRunConserves(s, front, capacity, MAIN);
      var r := before.requests[last.0];
      MoveLowersRank(r, last.1, Granted(r, last.1, before.free));
      RankAfter(before.requests, last.0, Moved(r, last.1, Granted(r, last.1, before.free)));
    }
  }

  lemma {:induction false} StartRank(requests: seq<Request>)
    requires forall r :: r in requests ==> r == Request(r.mode, r.inConversation, Entering, Absent, Uncharged, [], [])
    ensures RankOf(requests) == 15 * |requests|
  {
    if requests != [] {
      assert requests[|requests| - 1] in requests;
      StartRank(requests[..|requests| - 1]);
    }
  }

  /** A request that has not settled always has a possible move: nothing waits for a slot. */
  lemma UnsettledCanMove(r: Request) returns (move: Move)
    requires Sound(r) && !Settled(r)
    ensures Enabled(r, move)
  {
    match r.phase
    case Entering => move := TryMain;
    case WantExtra => move := TryExtra;
    case WantQuota => move := Quota(true);
    case WantPersist => move := Persist(true);
    case WantSubmit => move := Submit(true);
    case Refunding => move := Refund(true);
    case Refused(left) => move := Release;
    case Serving(left) => move := if left == [] then Leave else Register;
    case Answered => move := if r.task.Running? then End else Callback;
    case Crashed => assert false;
  }
}
