/** The slots of the ask endpoints: `ask_v2`, `ask_stream_v2` and `_open_ask_stream` in
    src/zglab_rag/api/main.py over the guards of src/zglab_rag/api/concurrency.py.

    Handlers, workers and done callbacks interleave one slot operation at a time.  A request
    starts here after its preflight, at the point where it first asks for a slot. */
module AskLifecycle {
  import opened Options
  import Seqs

  datatype Guard = MAIN | AGENT | RESEARCH

  /** How often a guard occurs in a list. */
  function Count(guards: seq<Guard>, g: Guard): nat {
    if guards == [] then 0 else Count(guards[..|guards| - 1], g) + if guards[|guards| - 1] == g then 1 else 0
  }

  /** ConcurrencyGuard: a semaphore taken without blocking; false stands for ServiceBusyError. */
  class ConcurrencyGuard {
    const maxConcurrent: int
    var free: int

    constructor (maxConcurrent: int)
      requires maxConcurrent >= 0
      ensures this.maxConcurrent == free == maxConcurrent
    {
      this.maxConcurrent, free := maxConcurrent, maxConcurrent;
    }

    method Acquire() returns (ok: bool)
      modifies this
      ensures ok <==> old(free) > 0
      ensures free == old(free) - if ok then 1 else 0
    {
      ok := free > 0;
      if ok {
        free := free - 1;
      }
    }

    method Release()
      modifies this
      ensures free == old(free) + 1
    {
      free := free + 1;
    }
  }

  datatype Mode = PERSONAL | WEB | AGENTIC

  /** `held_guards` once every slot is taken. */
  function Guards(mode: Mode): (guards: seq<Guard>)
    ensures 1 <= |guards| <= 2
  {
    match mode
    case PERSONAL => [MAIN]
    case WEB => [MAIN, RESEARCH]
    case AGENTIC => [MAIN, AGENT]
  }

  /** Where the handler stands.  `Refused` gives back the slots left; `Serving` has submitted the
      generation, still has the callbacks left to register, and then waits or streams. */
  datatype Phase =
    | Entering
    | WantExtra
    | WantQuota
    | WantPersist
    | WantSubmit
    | Refunding
    | Refused(left: seq<Guard>)
    | Serving(left: seq<Guard>)
    | Answered
    | Crashed

  /** The background future with the done callbacks registered on it and not yet run. */
  datatype Task = Absent | Running(callbacks: seq<Guard>) | Finished(callbacks: seq<Guard>)

  /** The request's quota: not counted, counted, or counted with a failed refund. */
  datatype Charge = Uncharged | Charged | Unreturned

  /** `taken` and `released` record the slot operations made for the request, in order. */
  datatype Request = Request(mode: Mode, inConversation: bool, phase: Phase, task: Task, charge: Charge,
                             taken: seq<Guard>, released: seq<Guard>)

  /** One step: of the handler, of the worker (`End`, `Callback`) or of the connection (`Leave`:
      answered, timed out or disconnected).  `Raise` is an unexpected exception of the quota
      store or the message store, which no handler catches; a failing refund is only logged. */
  datatype Move =
    | TryMain | TryExtra | Quota(granted: bool) | Persist(found: bool) | Refund(given: bool) | Raise
    | Submit(accepted: bool) | Release | Register | End | Callback | Leave

  /** The free slots of each guard. */
  datatype State = State(free: map<Guard, int>, requests: seq<Request>)

  predicate Enabled(r: Request, move: Move) {
    match move
    case TryMain => r.phase.Entering?
    case TryExtra => r.phase.WantExtra? && |Guards(r.mode)| == 2
    case Quota(_) => r.phase.WantQuota?
    case Persist(_) => r.phase.WantPersist?
    case Refund(_) => r.phase.Refunding?
    case Raise => r.phase.WantQuota? || r.phase.WantPersist?
    case Submit(_) => r.phase.WantSubmit?
    case Release => r.phase.Refused? && r.phase.left != []
    case Register => r.phase.Serving? && r.phase.left != [] && !r.task.Absent?
    case End => r.task.Running?
    case Callback => r.task.Finished? && r.task.callbacks != []
    case Leave => r.phase == Serving([])
  }

  /** The guard whose slot the step asks for. */
  function Wanted(r: Request, move: Move): Option<Guard>
    requires Enabled(r, move)
  {
    match move
    case TryMain => Some(MAIN)
    case TryExtra => Some(Guards(r.mode)[1])
    case _ => None
  }

  /** The guard whose slot the step gives back. */
  function Returned(r: Request, move: Move): Option<Guard>
    requires Enabled(r, move)
  {
    match move
    case Release => Some(r.phase.left[0])
    case Register => if r.task.Finished? then Some(r.phase.left[0]) else None
    case Callback => Some(r.task.callbacks[0])
    case _ => None
  }

  /** The handler's next phase; `granted` tells whether the slot asked for was free. */
  function NextPhase(r: Request, move: Move, granted: bool): Phase
    requires Enabled(r, move)
  {
    var guards := Guards(r.mode);
    match move
    case TryMain => if !granted then Refused([]) else if |guards| == 2 then WantExtra else WantQuota
    case TryExtra => if granted then WantQuota else Refused([MAIN])
    case Quota(allowed) => if !allowed then Refused(guards) else if r.inConversation then WantPersist else WantSubmit
    case Persist(found) => if found then WantSubmit else Refunding
    case Refund(given) => Refused(guards)
    case Raise => Crashed
    case Submit(accepted) => if accepted then Serving(guards) else Refunding
    case Release => Refused(r.phase.left[1..])
    case Register => Serving(r.phase.left[1..])
    case End => r.phase
    case Callback => r.phase
    case Leave => Answered
  }

  /** A callback registered on a finished future runs at once, in the handler. */
  function NextTask(r: Request, move: Move): Task
    requires Enabled(r, move)
  {
    match move
    case Submit(accepted) => if accepted then Running([]) else r.task
    case Register => if r.task.Running? then Running(r.task.callbacks + [r.phase.left[0]]) else r.task
    case End => Finished(r.task.callbacks)
    case Callback => Finished(r.task.callbacks[1..])
    case _ => r.task
  }

  function NextCharge(r: Request, move: Move): Charge {
    match move
    case Quota(allowed) => if allowed then Charged else r.charge
    case Refund(given) => if given then Uncharged else Unreturned
    case _ => r.charge
  }

  function Appended(history: seq<Guard>, g: Option<Guard>): seq<Guard> {
    if g.Some? then history + [g.value] else history
  }

  predicate Granted(r: Request, move: Move, free: map<Guard, int>)
    requires Enabled(r, move)
  {
    Wanted(r, move).Some? && Wanted(r, move).value in free && free[Wanted(r, move).value] > 0
  }

  function Moved(r: Request, move: Move, granted: bool): Request
    requires Enabled(r, move)
  {
    Request(r.mode, r.inConversation, NextPhase(r, move, granted), NextTask(r, move), NextCharge(r, move),
            if granted then Appended(r.taken, Wanted(r, move)) else r.taken, Appended(r.released, Returned(r, move)))
  }

  /** The free slots after a step. */
  function NextFree(free: map<Guard, int>, wanted: Option<Guard>, granted: bool,
                    returned: Option<Guard>): map<Guard, int> {
    if granted && wanted.Some? && wanted.value in free then free[wanted.value := free[wanted.value] - 1]
    else if returned.Some? && returned.value in free then free[returned.value := free[returned.value] + 1]
    else free
  }

  function Step(s: State, i: nat, move: Move): State {
    if i < |s.requests| && Enabled(s.requests[i], move) then
      var r := s.requests[i];
      var granted := Granted(r, move, s.free);
      State(NextFree(s.free, Wanted(r, move), granted, Returned(r, move)), s.requests[i := Moved(r, move, granted)])
    else s
  }

  function Run(s: State, moves: seq<(nat, Move)>): State {
    if moves == [] then s
    else
      var last := moves[|moves| - 1];
      Step(Run(s, moves[..|moves| - 1]), last.0, last.1)
  }

  predicate Starts(s: State, capacity: map<Guard, int>) {
    && s.free == capacity
    && forall r :: r in s.requests ==> r == Request(r.mode, r.inConversation, Entering, Absent, Uncharged, [], [])
  }

  // ----- one request -----

  function Callbacks(task: Task): seq<Guard> {
    if task.Absent? then [] else task.callbacks
  }

  /** The slots the rest of the handler will release. */
  function OwedByHandler(r: Request): seq<Guard> {
    match r.phase
    case Entering => []
    case WantExtra => [MAIN]
    case WantQuota => Guards(r.mode)
    case WantPersist => Guards(r.mode)
    case WantSubmit => Guards(r.mode)
    case Refunding => Guards(r.mode)
    case Refused(left) => left
    case Serving(left) => left
    case Answered => []
    case Crashed => []
  }

  /** The slots a crashed handler never gives back. */
  function Lost(r: Request): seq<Guard> {
    if r.phase.Crashed? then Guards(r.mode) else []
  }

  /** The slots of `g` the request has: its handler and callbacks will release all but the lost. */
  function Held(r: Request, g: Guard): nat {
    Count(OwedByHandler(r), g) + Count(Callbacks(r.task), g) + Count(Lost(r), g)
  }

  predicate Submitted(phase: Phase) {
    phase.Serving? || phase.Answered?
  }

  /** The charge in each phase. */
  predicate ChargeFits(r: Request) {
    match r.phase
    case Entering => r.charge.Uncharged?
    case WantExtra => r.charge.Uncharged?
    case WantQuota => r.charge.Uncharged?
    case WantPersist => r.charge.Charged?
    case WantSubmit => r.charge.Charged?
    case Refunding => r.charge.Charged?
    case Refused(left) => !r.charge.Charged?
    case Serving(left) => r.charge.Charged?
    case Answered => r.charge.Charged?
    case Crashed => !r.charge.Unreturned?
  }

  /** Each slot of `g` taken is released or still held. */
  predicate Balanced(r: Request, g: Guard) {
    Count(r.taken, g) == Count(r.released, g) + Held(r, g)
  }

  /** What every step of a request keeps. */
  predicate Sound(r: Request) {
    && r.taken <= Guards(r.mode)
    && (Submitted(r.phase) <==> !r.task.Absent?)
    && (r.phase.Entering? ==> r.taken == [])
    && (r.phase.WantExtra? ==> |Guards(r.mode)| == 2 && r.taken == [MAIN])
    && (!r.phase.Entering? && !r.phase.WantExtra? && !r.phase.Refused? ==> r.taken == Guards(r.mode))
    && (r.task.Running? || (!Submitted(r.phase) && !r.phase.Refused?) ==> r.released == [])
    && ChargeFits(r)
  }

  lemma CountMore(guards: seq<Guard>, x: Guard, g: Guard)
    ensures Count(guards + [x], g) == Count(guards, g) + if x == g then 1 else 0
  {
    Seqs.DropLast(guards, x);
  }

  lemma {:induction false} CountFirst(guards: seq<Guard>, g: Guard)
    requires guards != []
    ensures Count(guards, g) == Count(guards[1..], g) + if guards[0] == g then 1 else 0
  {
    if |guards| > 1 {
      var front := guards[..|guards| - 1];
      CountFirst(front, g);
      assert guards[1..][..|guards| - 2] == front[1..];
    }
  }

  lemma CountGuards(mode: Mode, g: Guard)
    ensures Count([], g) == 0 && Count([MAIN], g) == if g == MAIN then 1 else 0
    ensures Count(Guards(mode), g) == Count([MAIN], g) + if |Guards(mode)| == 2 && Guards(mode)[1] == g then 1 else 0
  {
    assert [MAIN][..0] == [];
    if |Guards(mode)| == 2 {
      CountMore([MAIN], Guards(mode)[1], g);
      assert Guards(mode) == [MAIN] + [Guards(mode)[1]];
    }
  }

  function Once(guard: Option<Guard>, g: Guard): nat {
    if guard == Some(g) then 1 else 0
  }

  lemma AppendedCount(history: seq<Guard>, guard: Option<Guard>, g: Guard)
    ensures Count(Appended(history, guard), g) == Count(history, g) + Once(guard, g)
  {
    if guard.Some? {
      CountMore(history, guard.value, g);
    }
  }

  lemma HeldAfterAsking(r: Request, move: Move, granted: bool, g: Guard)
    requires Sound(r) && Enabled(r, move) && (move.TryMain? || move.TryExtra?)
    ensures Held(Moved(r, move, granted), g) == Held(r, g) + if granted then Once(Wanted(r, move), g) else 0
  {
    CountGuards(r.mode, g);
  }

  lemma RegisteredParts(r: Request, granted: bool, after: Request)
    requires Enabled(r, Register) && r.task.Running? && after == Moved(r, Register, granted)
    ensures OwedByHandler(after) == r.phase.left[1..] && Lost(after) == Lost(r)
    ensures Callbacks(after.task) == Callbacks(r.task) + [r.phase.left[0]]
  {
  }

  lemma HeldAfterRegisterRunning(r: Request, granted: bool, g: Guard)
    requires Enabled(r, Register) && r.task.Running?
    ensures Held(Moved(r, Register, granted), g) == Held(r, g)
  {
    RegisteredParts(r, granted, Moved(r, Register, granted));
    CountFirst(OwedByHandler(r), g);
    CountMore(Callbacks(r.task), r.phase.left[0], g);
  }

  lemma HeldAfterRegisterFinished(r: Request, granted: bool, g: Guard)
    requires Enabled(r, Register) && r.task.Finished?
    ensures Held(Moved(r, Register, granted), g) + Once(Some(r.phase.left[0]), g) == Held(r, g)
  {
    CountFirst(r.phase.left, g);
  }

  lemma HeldAfterRegister(r: Request, granted: bool, g: Guard)
    requires Enabled(r, Register)
    ensures Held(Moved(r, Register, granted), g) + Once(Returned(r, Register), g) == Held(r, g)
  {
    if r.task.Running? {
      HeldAfterRegisterRunning(r, granted, g);
    } else {
      HeldAfterRegisterFinished(r, granted, g);
    }
  }

  lemma HeldAfterRelease(r: Request, granted: bool, g: Guard)
    requires Enabled(r, Release)
    ensures Held(Moved(r, Release, granted), g) + Once(Returned(r, Release), g) == Held(r, g)
  {
    CountFirst(r.phase.left, g);
  }

  lemma HeldAfterCallback(r: Request, granted: bool, g: Guard)
    requires Enabled(r, Callback)
    ensures Held(Moved(r, Callback, granted), g) + Once(Returned(r, Callback), g) == Held(r, g)
  {
    CountFirst(r.task.callbacks, g);
  }

  predicate Moves(move: Move) {
    move.TryMain? || move.TryExtra? || move.Register? || move.Release? || move.Callback?
  }

  lemma HeldOtherwise(r: Request, move: Move, granted: bool, g: Guard)
    requires Sound(r) && Enabled(r, move) && !Moves(move)
    ensures Held(Moved(r, move, granted), g) == Held(r, g)
  {
  }

  /** What a request has changes by what it takes and returns. */
  lemma HeldAfter(r: Request, move: Move, granted: bool, g: Guard)
    requires Sound(r) && Enabled(r, move) && (granted ==> Wanted(r, move).Some?)
    ensures Held(Moved(r, move, granted), g) + Once(Returned(r, move), g)
         == Held(r, g) + if granted then Once(Wanted(r, move), g) else 0
  {
    if move.TryMain? || move.TryExtra? {
      HeldAfterAsking(r, move, granted, g);
    } else if move.Register? {
      HeldAfterRegister(r, granted, g);
    } else if move.Release? {
      HeldAfterRelease(r, granted, g);
    } else if move.Callback? {
      HeldAfterCallback(r, granted, g);
    } else {
      HeldOtherwise(r, move, granted, g);
    }
  }

  lemma MovedStaysBalanced(r: Request, move: Move, granted: bool, g: Guard)
    requires Sound(r) && Balanced(r, g) && Enabled(r, move) && (granted ==> Wanted(r, move).Some?)
    ensures Balanced(Moved(r, move, granted), g)
  {
    HeldAfter(r, move, granted, g);
    AppendedCount(r.taken, Wanted(r, move), g);
    AppendedCount(r.released, Returned(r, move), g);
  }

  lemma MovedStaysSound(r: Request, move: Move, granted: bool)
    requires Sound(r) && Enabled(r, move) && (granted ==> Wanted(r, move).Some?)
    ensures Sound(Moved(r, move, granted))
  {
    if move.TryMain? || move.TryExtra? {
      AskingStaysSound(r, move, granted);
    }
  }

  lemma AskingStaysSound(r: Request, move: Move, granted: bool)
    requires Sound(r) && Enabled(r, move) && (move.TryMain? || move.TryExtra?)
    ensures Sound(Moved(r, move, granted))
  {
    assert Guards(r.mode)[..1] == [MAIN];
  }

  // ----- one handler, run without interleaving -----

  /** `for held in held_guards: held.release()`, also what the done callbacks do. */
  method ReleaseAll(held: seq<ConcurrencyGuard>)
    requires forall i, j :: 0 <= i < j < |held| ==> held[i] != held[j]
    modifies held
    ensures forall i :: 0 <= i < |held| ==> held[i].free == old(held[i].free) + 1
  {
    for k := 0 to |held|
      invariant forall i :: 0 <= i < k ==> held[i].free == old(held[i].free) + 1
      invariant forall i :: k <= i < |held| ==> held[i].free == old(held[i].free)
    {
      held[k].Release();
    }
  }

  /** What a store answers: granted or found, refused or missing, or an exception. */
  datatype Answer = YES | NO | RAISED

  /** The guards an ask handler works with. */
  class AskEndpoint {
    const main: ConcurrencyGuard
    const agent: ConcurrencyGuard
    const research: ConcurrencyGuard

    constructor (main: ConcurrencyGuard, agent: ConcurrencyGuard, research: ConcurrencyGuard)
      requires main != agent && main != research && agent != research
      ensures this.main == main && this.agent == agent && this.research == research && Apart()
    {
      this.main, this.agent, this.research := main, agent, research;
    }

    predicate Apart() {
      main != agent && main != research && agent != research
    }

    predicate HasRoom(mode: Mode)
      reads main, agent, research
    {
      && main.free > 0
      && (mode.AGENTIC? ==> agent.free > 0)
      && (mode.WEB? ==> research.free > 0)
    }

    /** From the first slot to the registration of the callbacks.  What the quota store, the
        message store and the executor answer, and whether a refund succeeds, are given.
        `callbacks` are the slots the future will give back; a handler that a store's exception
        cuts short keeps its slots for good. */
    method Ask(mode: Mode, inConversation: bool, quota: Answer, persisted: Answer, accepted: bool, refundGiven: bool)
      returns (submitted: bool, crashed: bool, charge: Charge, callbacks: seq<ConcurrencyGuard>)
      requires Apart()
      modifies main, agent, research
      ensures submitted <==> old(HasRoom(mode)) && quota.YES? && (inConversation ==> persisted.YES?) && accepted
      ensures crashed <==> old(HasRoom(mode)) && (quota.RAISED? || (quota.YES? && inConversation && persisted.RAISED?))
      ensures charge == if !old(HasRoom(mode)) || !quota.YES? then Uncharged
                        else if submitted || crashed then Charged
                        else if refundGiven then Uncharged
                        else Unreturned
      ensures callbacks == if submitted then Slots(mode) else []
      ensures main.free == old(main.free) - (if submitted || crashed then 1 else 0)
      ensures agent.free == old(agent.free) - (if (submitted || crashed) && mode.AGENTIC? then 1 else 0)
      ensures research.free == old(research.free) - (if (submitted || crashed) && mode.WEB? then 1 else 0)
    {
      submitted, crashed, charge, callbacks := false, false, Uncharged, [];
      var ok := main.Acquire();
      if !ok {
        return;
      }
      var held := [main];
      if mode == AGENTIC {
        ok := agent.Acquire();
        if !ok {
          main.Release();
          return;
        }
        held := held + [agent];
      }
      if mode == WEB {
        ok := research.Acquire();
        if !ok {
          main.Release();
          return;
        }
        held := held + [research];
      }
      assert held == Slots(mode) && held[0] == main;
      assert |held| == 2 ==> held[1] == if mode == WEB then research else agent;
      assert (mode != AGENTIC ==> agent !in held) && (mode != WEB ==> research !in held);
      if quota == RAISED {
        crashed := true;
        return;
      }
      if quota == NO {
        ReleaseAll(held);
        return;
      }
      charge := Charged;
      if inConversation && persisted == RAISED {
        crashed := true;
        return;
      }
      if (inConversation && persisted == NO) || !accepted {
        charge := if refundGiven then Uncharged else Unreturned;
        ReleaseAll(held);
        return;
      }
      submitted := true;
      callbacks := callbacks + [main];
      for i := 1 to |held|
        invariant callbacks == held[..i]
      {
        callbacks := callbacks + [held[i]];
      }
    }

    function GuardOf(g: Guard): ConcurrencyGuard {
      match g case MAIN => main case AGENT => agent case RESEARCH => research
    }

    /** The slots that the interleaving model names for the mode. */
    function Slots(mode: Mode): seq<ConcurrencyGuard> {
      seq(|Guards(mode)|, i requires 0 <= i < |Guards(mode)| => GuardOf(Guards(mode)[i]))
    }
  }
}
