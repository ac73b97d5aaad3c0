/** Where the summary misses a turn for good, and where its coverage never moves again. */
module SummaryLimits {
  import opened Numbers
  import opened Options
  import opened Text
  import opened Turns
  import opened Context
  import opened Summaries
  import opened SummaryLaws
  import opened SummaryRuns
  import Seqs

  // ----- a missed turn -----

  /** A complete turn left behind by the coverage is never summarized later. */
  lemma {:induction false} MissedTurnStaysMissed(s: State, t: Turn, events: seq<Event>, c: Config)
    requires Sound(s) && t.assistant.id <= Coverage(s.summary) && t !in s.summarized
    ensures Sound(Run(s, events, c)) && t !in Run(s, events, c).summarized
    ensures t.assistant.id <= Coverage(Run(s, events, c).summary)
  {
    if events != [] {
      MissedTurnStaysMissed(s, t, events[..|events| - 1], c);
      StepKeepsSound(Run(s, events[..|events| - 1], c), events[|events| - 1], c);
    }
  }

  lemma RunNext(s: State, events: seq<Event>, e: Event, c: Config)
    ensures Run(s, events + [e], c) == Step(Run(s, events, c), e, c)
  {
    Seqs.DropLast(events, e);
  }

  const SMALL := Config(2, 2, 2000, 6000, 200, 1)

  /** Three turns; the first took its times at `first`, the others from 3 on. */
  function Talk(first: int): (messages: seq<Message>)
    ensures |messages| == 6
  {
    [Asked(1, first), Answered(2, first), Asked(3, 3), Answered(4, 4), Asked(5, 5), Answered(6, 6)]
  }

  function Asked(id: int, created: int): Message {
    Message(id, USER, "q", created)
  }

  function Answered(id: int, created: int): Message {
    Message(id, ASSISTANT, "a", created)
  }

  function FirstTurn(first: int): Turn {
    Turn(Asked(1, first), Answered(2, first))
  }

  function LateTurns(): (turns: seq<Turn>)
    ensures |turns| == 2
  {
    [Turn(Asked(3, 3), Answered(4, 4)), Turn(Asked(5, 5), Answered(6, 6))]
  }

  lemma TalkTurns(first: int)
    ensures CompleteTurns(Talk(first)) == [FirstTurn(first)] + LateTurns()
  {
    var log := Talk(first);
    assert TurnsBefore(log, 1) == [FirstTurn(first)];
    assert TurnsBefore(log, 2) == [FirstTurn(first)];
    assert TurnsBefore(log, 3) == [FirstTurn(first)] + [LateTurns()[0]];
    assert TurnsBefore(log, 4) == TurnsBefore(log, 3);
    assert TurnsBefore(log, 5) == TurnsBefore(log, 4) + [LateTurns()[1]];
    assert TurnsBefore(log, 6) == TurnsBefore(log, 5);
  }

  lemma LateTurnsFit(turns: seq<Turn>)
    requires turns == LateTurns()
    ensures Included("", turns, SMALL) == 2
  {
    assert Head("") == "NEW COMPLETE TURNS (untrusted):\n";
    assert turns[..2] == turns && turns[..1] == [turns[0]] && turns[..0] == [];
    assert TurnTexts(turns) == TurnTexts([turns[0]]) + TurnText(turns[1]);
    assert TurnTexts([turns[0]]) == TurnTexts([]) + TurnText(turns[0]);
    assert |TurnTexts(turns)| <= 80;
    FittingTextIsKept(Head(""), 2000, 6000);
    IncludedIsLargest("", turns, 2, SMALL);
  }

  lemma LateTurnsAreKept(turns: seq<Turn>, first: Turn, late: seq<Turn>)
    requires turns == [first] + late && |late| == 2 && first.assistant.id == 2
    requires late[0].assistant.id == 4 && late[1].assistant.id == 6
    ensures NotRecent(turns, {1, 2}) == late
  {
    var a, b := turns[..1], turns[..2];
    assert b[..1] == a && a[..0] == [];
    assert NotRecent(a, {1, 2}) == [];
    assert NotRecent(b, {1, 2}) == [late[0]];
    assert NotRecent(turns, {1, 2}) == [late[0]] + [late[1]];
  }

  lemma LateTurnsChosen(first: int)
    ensures Chosen(Talk(first), None, {1, 2}, SMALL) == LateTurns()
  {
    var log, kept := Talk(first), LateTurns();
    TalkTurns(first);
    assert Chronological(log);
    NothingCoveredYet(log);
    assert NewMessages(log, 0, SMALL) == log;
    LateTurnsAreKept([FirstTurn(first)] + kept, FirstTurn(first), kept);
    LateTurnsFit(kept);
    assert kept[..2] == kept;
  }

  lemma NothingCoveredYet(messages: seq<Message>)
    requires Chronological(messages)
    ensures Upto(messages, 0) == 0
  {
    UptoSplits(messages, 0);
    if messages != [] {
      assert messages[0].id > 0;
    }
  }

  lemma LateReply(first: int)
    ensures Step(State(Talk(first), None, Waiting(LateTurns()), []), Reply(Some("s")), SMALL)
         == State(Talk(first), Some(Summary("s", 6)), Idle, LateTurns())
  {
    assert Talk(first)[5] in Talk(first);
    assert "s"[..0] == "" && Bytes("s") <= 4;
    FittingTextIsKept("s", 200, 600);
    assert !Blank("s") by {
      assert !IsSpace("s"[0]);
    }
  }

  /** The first turn is complete and below the coverage, but was not summarized. */
  ghost predicate FirstTurnIsMissed(s: State, first: int) {
    && FirstTurn(first) in CompleteTurns(s.messages) && FirstTurn(first) !in s.summarized
    && Coverage(s.summary) == 6
  }

  lemma LateTurnsAreStored(s: State, first: int)
    requires s == State(Talk(first), None, Looking({1, 2}), [])
    ensures FirstTurnIsMissed(Step(Step(s, ReadNew, SMALL), Reply(Some("s")), SMALL), first)
  {
    LateTurnsChosen(first);
    LateReply(first);
    TalkTurns(first);
    assert ([FirstTurn(first)] + LateTurns())[0] == FirstTurn(first);
    assert forall t :: t in LateTurns() ==> t.user.id > 1;
  }

  // ----- messages between the two reads -----

  /** The last two turns arrive. */
  function Arriving(): seq<Event> {
    [Append(0, 3, USER, "q")] + [Append(0, 4, ASSISTANT, "a")] + [Append(0, 5, USER, "q")]
    + [Append(0, 6, ASSISTANT, "a")]
  }

  lemma LateTurnsArrive(s: State, first: int, c: Config)
    requires s.messages == [Asked(1, first), Answered(2, first)]
    ensures Run(s, Arriving(), c) == s.(messages := Talk(first))
  {
    var a, b, d := Append(0, 3, USER, "q"), Append(0, 4, ASSISTANT, "a"), Append(0, 5, USER, "q");
    NoEvents(s, c);
    RunNext(s, [], a, c);
    RunNext(s, [a], b, c);
    RunNext(s, [a] + [b], d, c);
    RunNext(s, [a] + [b] + [d], Append(0, 6, ASSISTANT, "a"), c);
  }

  lemma NoEvents(s: State, c: Config)
    ensures Run(s, [], c) == s
  {
  }

  lemma NewerOfTwo(a: Message, b: Message, m: Message)
    ensures NewerThan([a] + [b], m) == (if Newer(a, m) then 1 else 0) + if Newer(b, m) then 1 else 0
  {
    Seqs.DropLast([a], b);
    assert [a][..0] == [];
    assert NewerThan([a], m) == if Newer(a, m) then 1 else 0;
  }

  lemma FirstTwoAreRecent(a: Message, b: Message)
    requires a.id == 1 && b.id == 2
    ensures RecentIds([a] + [b], SMALL) == {1, 2}
  {
    NewerOfTwo(a, b, a);
    NewerOfTwo(a, b, b);
    assert a in [a] + [b] && b in [a] + [b];
  }

  /** Two turns arriving between the two reads: the coverage passes the first turn, which is
      complete but summarized neither now nor, by the lemma above, later. */
  lemma MessagesBetweenTheReadsLoseATurn()
    ensures var before := State([Asked(1, 1), Answered(2, 1)], None, Idle, []);
            var arrived := Run(Step(before, ReadRecent, SMALL), Arriving(), SMALL);
            FirstTurnIsMissed(Step(Step(arrived, ReadNew, SMALL), Reply(Some("s")), SMALL), 1)
  {
    var pair := [Asked(1, 1), Answered(2, 1)];
    var before := State(pair, None, Idle, []);
    FirstTwoAreRecent(Asked(1, 1), Answered(2, 1));
    assert pair == [Asked(1, 1)] + [Answered(2, 1)];
    LateTurnsArrive(Step(before, ReadRecent, SMALL), 1, SMALL);
    LateTurnsAreStored(State(Talk(1), None, Looking({1, 2}), []), 1);
  }

  // ----- times that do not follow the ids -----

  lemma {:induction false} NewerInParts(a: seq<Message>, b: seq<Message>, m: Message)
    ensures NewerThan(a + b, m) == NewerThan(a, m) + NewerThan(b, m)
  {
    if b == [] {
      assert a + b == a;
    } else {
      var front, last := b[..|b| - 1], b[|b| - 1];
      assert a + b == (a + front) + [last];
      Seqs.DropLast(a + front, last);
      NewerInParts(a, front, m);
    }
  }

  lemma {:induction false} NoneNewer(messages: seq<Message>, m: Message)
    requires forall x :: x in messages ==> !Newer(x, m)
    ensures NewerThan(messages, m) == 0
  {
    if messages != [] {
      NoneNewer(messages[..|messages| - 1], m);
    }
  }

  /** Two messages that are newer than all others are the recent ones. */
  lemma TwoAreRecent(a: Message, b: Message, rest: seq<Message>, log: seq<Message>)
    requires a.id == 1 && b.id == 2 && log == ([a] + [b]) + rest
    requires forall x :: x in rest ==> Newer(a, x) && Newer(b, x)
    ensures RecentIds(log, SMALL) == {1, 2}
  {
    forall m | m in log ensures NewerThan(log, m) < 2 <==> m == a || m == b {
      NewerInParts([a] + [b], rest, m);
      NewerOfTwo(a, b, m);
      if m == a || m == b {
        NoneNewer(rest, m);
      }
    }
    assert a in log && b in log;
  }

  lemma LateTimesAreRecent(log: seq<Message>)
    requires log == Talk(7)
    ensures RecentIds(log, SMALL) == {1, 2}
  {
    var rest := log[2..];
    assert rest == [log[2]] + [log[3]] + [log[4]] + [log[5]];
    assert log == ([log[0]] + [log[1]]) + rest;
    TwoAreRecent(log[0], log[1], rest, log);
  }

  lemma FirstTurnArrives(first: int, c: Config)
    ensures Run(FRESH, [Append(0, first, USER, "q")] + [Append(0, first, ASSISTANT, "a")], c)
         == State([Asked(1, first), Answered(2, first)], None, Idle, [])
  {
    NoEvents(FRESH, c);
    RunNext(FRESH, [], Append(0, first, USER, "q"), c);
    RunNext(FRESH, [Append(0, first, USER, "q")], Append(0, first, ASSISTANT, "a"), c);
  }

  lemma {:induction false} RunJoins(s: State, a: seq<Event>, b: seq<Event>, c: Config)
    ensures Run(s, a + b, c) == Run(Run(s, a, c), b, c)
  {
    if b == [] {
      assert a + b == a;
    } else {
      var front, last := b[..|b| - 1], b[|b| - 1];
      assert a + b == (a + front) + [last];
      RunJoins(s, a, front, c);
      RunNext(s, a + front, last, c);
    }
  }

  /** What a user says: the first turn at the time `first`, then the others. */
  function Talking(first: int): seq<Event> {
    [Append(0, first, USER, "q")] + [Append(0, first, ASSISTANT, "a")] + Arriving()
  }

  lemma TalkIsReached(first: int, c: Config)
    ensures Run(FRESH, Talking(first), c) == State(Talk(first), None, Idle, [])
  {
    var pair := [Append(0, first, USER, "q")] + [Append(0, first, ASSISTANT, "a")];
    FirstTurnArrives(first, c);
    RunJoins(FRESH, pair, Arriving(), c);
    LateTurnsArrive(Run(FRESH, pair, c), first, c);
  }

  /** A first turn whose times are late, although it got its ids first, is lost by a refresh that
      nothing interrupts. */
  lemma LateTimesLoseATurn()
    ensures var talked := Run(FRESH, Talking(7), SMALL);
            var looked := Step(Step(talked, ReadRecent, SMALL), ReadNew, SMALL);
            talked.worker.Idle? && FirstTurnIsMissed(Step(looked, Reply(Some("s")), SMALL), 7)
  {
    TalkIsReached(7, SMALL);
    LateTimesAreRecent(Talk(7));
    LateTurnsAreStored(State(Talk(7), None, Looking({1, 2}), []), 7);
  }

  // ----- a window that cannot be left -----

  /** The window is full, and no message in it is recent. */
  predicate WindowIsPast(messages: seq<Message>, covered: int, c: Config) {
    && |messages| >= Upto(messages, covered) + WindowSize(c)
    && forall m :: m in NewMessages(messages, covered, c) ==> NewerThan(messages, m) >= c.recentTurns * 2
  }

  /** If times follow the ids, enough messages behind the window make it past. */
  lemma LongLogIsPast(messages: seq<Message>, covered: int, c: Config)
    requires Chronological(messages) && InTime(messages)
    requires |messages| >= Upto(messages, covered) + WindowSize(c) + c.recentTurns * 2
    ensures WindowIsPast(messages, covered, c)
  {
    var start, window := Upto(messages, covered), NewMessages(messages, covered, c);
    NewMessagesAreASlice(messages, covered, c, start, window);
    forall m | m in window ensures NewerThan(messages, m) >= c.recentTurns * 2 {
      var k :| 0 <= k < |window| && window[k] == m;
      LaterAreNewer(messages, start + k, |messages|);
      Seqs.TakeAll(messages);
    }
  }

  /** The window holds enough turns, and the first of them fits the source budget. */
  predicate CanAdvance(existing: string, turns: seq<Turn>, c: Config) {
    |turns| >= c.trigger && turns != [] && c.batch > 0 && SourceFits(existing, turns[..Min(c.batch, |turns|)], c, 1)
  }

  ghost predicate NoneAmong(turns: seq<Turn>, recent: set<int>) {
    forall t :: t in turns ==> t.assistant.id !in recent
  }

  lemma PastWindowIsNotRecent(messages: seq<Message>, covered: int, c: Config)
    requires Chronological(messages) && WindowIsPast(messages, covered, c)
    ensures NoneAmong(NewTurns(messages, covered, c), RecentIds(messages, c))
  {
    var window := NewMessages(messages, covered, c);
    forall t | t in NewTurns(messages, covered, c) ensures t.assistant.id !in RecentIds(messages, c) {
      TurnsAreAdjacent(window, |window|, t);
      assert t.assistant in window && t.assistant in messages;
      RecentById(messages, c.recentTurns * 2, t.assistant);
    }
  }

  lemma ChosenIff(messages: seq<Message>, summary: Option<Summary>, recent: set<int>, c: Config, turns: seq<Turn>)
    requires turns == NewTurns(messages, Coverage(summary), c) && NoneAmong(turns, recent)
    ensures Chosen(messages, summary, recent, c) != [] <==> CanAdvance(Content(summary), turns, c)
  {
    NoneRecent(turns, recent);
    var batch := turns[..Min(c.batch, |turns|)];
    if |turns| >= c.trigger && batch != [] {
      IncludedIsLargest(Content(summary), batch, 1, c);
    }
  }

  /** Once the window is past, a refresh reaches the provider exactly when the window holds
      enough turns and the first of them fits the source budget. */
  lemma AdvancesIff(messages: seq<Message>, summary: Option<Summary>, c: Config)
    requires Chronological(messages) && WindowIsPast(messages, Coverage(summary), c)
    ensures Chosen(messages, summary, RecentIds(messages, c), c) != []
        <==> CanAdvance(Content(summary), NewTurns(messages, Coverage(summary), c), c)
  {
    PastWindowIsNotRecent(messages, Coverage(summary), c);
    ChosenIff(messages, summary, RecentIds(messages, c), c, NewTurns(messages, Coverage(summary), c));
  }

  lemma FullWindowIsStable(messages: seq<Message>, m: Message, covered: int, c: Config)
    requires WindowIsPast(messages, covered, c) && covered < m.id
    ensures WindowIsPast(messages + [m], covered, c)
    ensures NewMessages(messages + [m], covered, c) == NewMessages(messages, covered, c)
  {
    var all := messages + [m];
    Seqs.DropLast(messages, m);
    assert Upto(all, covered) == Upto(messages, covered);
    assert all[Upto(messages, covered)..][..WindowSize(c)] == messages[Upto(messages, covered)..][..WindowSize(c)];
    forall x | x in NewMessages(messages, covered, c) ensures NewerThan(all, x) >= c.recentTurns * 2 {
      NewerGrows(messages, m, x);
    }
  }

  /** The window of `s` is full, past and of no use, and no refresh is at work on other turns. */
  ghost predicate Stuck(s: State, turns: seq<Turn>, c: Config) {
    && Sound(s) && WindowIsPast(s.messages, Coverage(s.summary), c)
    && turns == NewTurns(s.messages, Coverage(s.summary), c) && !CanAdvance(Content(s.summary), turns, c)
    && (s.worker.Idle? || (s.worker.Looking? && NoneAmong(turns, s.worker.recent)))
  }

  lemma StepStaysStuck(s: State, turns: seq<Turn>, e: Event, c: Config)
    requires Stuck(s, turns, c)
    ensures Stuck(Step(s, e, c), turns, c) && Step(s, e, c).summary == s.summary
  {
    StepKeepsSound(s, e, c);
    match e
    case Append(gap, created, role, content) =>
      CoverageIsInLog(s);
      var m := Message(NextId(s.messages, gap), role, content, created);
      FullWindowIsStable(s.messages, m, Coverage(s.summary), c);
    case ReadRecent =>
      PastWindowIsNotRecent(s.messages, Coverage(s.summary), c);
    case ReadNew =>
      if s.worker.Looking? {
        ChosenIff(s.messages, s.summary, s.worker.recent, c, turns);
      }
    case Reply(text) =>
  }

  /** From then on no run of messages and refreshes stores another summary. */
  lemma {:induction false} StuckForever(s: State, turns: seq<Turn>, events: seq<Event>, c: Config)
    requires Stuck(s, turns, c)
    ensures Stuck(Run(s, events, c), turns, c) && Run(s, events, c).summary == s.summary
  {
    if events != [] {
      StuckForever(s, turns, events[..|events| - 1], c);
      StepStaysStuck(Run(s, events[..|events| - 1], c), turns, events[|events| - 1], c);
    }
  }

  /** A window of unanswered questions stops the summary for good, whatever follows it. */
  lemma UnansweredQuestionsStopTheSummary(s: State, events: seq<Event>, c: Config)
    requires Sound(s) && s.worker.Idle? && WindowIsPast(s.messages, Coverage(s.summary), c)
    requires forall m :: m in NewMessages(s.messages, Coverage(s.summary), c) ==> m.role == USER
    ensures Run(s, events, c).summary == s.summary
  {
    var window := NewMessages(s.messages, Coverage(s.summary), c);
    QuestionsMakeNoTurn(window, |window|);
    StuckForever(s, [], events, c);
  }

  // ----- a run into such a window -----

  /** A user asks again and again, with or without an answer in between. */
  function Speaker(i: nat, answered: bool): Role {
    if answered && i % 2 == 1 then ASSISTANT else USER
  }

  function Spoken(n: nat, answered: bool): (events: seq<Event>) {
    if n == 0 then [] else Spoken(n - 1, answered) + [Append(0, n, Speaker(n - 1, answered), "q")]
  }

  function Log(n: nat, answered: bool): (messages: seq<Message>)
    ensures |messages| == n
    ensures forall i :: 0 <= i < n ==> messages[i] == Message(i + 1, Speaker(i, answered), "q", i + 1)
  {
    if n == 0 then [] else Log(n - 1, answered) + [Message(n, Speaker(n - 1, answered), "q", n)]
  }

  lemma OneMoreIsSpoken(s: State, k: nat, n: nat, role: Role, answered: bool, c: Config)
    requires s == State(Log(k, answered), None, Idle, []) && n == k + 1 && role == Speaker(k, answered)
    ensures Step(s, Append(0, n, role, "q"), c) == State(Log(n, answered), None, Idle, [])
  {
    assert NextId(s.messages, 0) == n;
  }

  lemma {:induction false} SpokenRun(n: nat, answered: bool, c: Config)
    ensures Run(FRESH, Spoken(n, answered), c) == State(Log(n, answered), None, Idle, [])
  {
    if n > 0 {
      var k := n - 1;
      var role := Speaker(k, answered);
      SpokenRun(k, answered, c);
      RunNext(FRESH, Spoken(k, answered), Append(0, n, role, "q"), c);
      OneMoreIsSpoken(Run(FRESH, Spoken(k, answered), c), k, n, role, answered, c);
      assert Spoken(n, answered) == Spoken(k, answered) + [Append(0, n, role, "q")];
    }
  }

  lemma QuestionsAreStuck(s: State, n: nat, c: Config)
    requires n == WindowSize(c) + c.recentTurns * 2 && s == State(Log(n, false), None, Idle, []) && Sound(s)
    ensures Stuck(s, [], c)
  {
    var window := NewMessages(s.messages, 0, c);
    NothingCoveredYet(s.messages);
    LongLogIsPast(s.messages, 0, c);
    assert forall m :: m in s.messages ==> m.role == USER;
    QuestionsMakeNoTurn(window, |window|);
  }

  /** Under every configuration, a full window of unanswered questions in front of the recent
      messages is reached from an empty conversation, and no summary is ever stored after it. */
  lemma StuckIsReached(n: nat, events: seq<Event>, c: Config)
    requires n == WindowSize(c) + c.recentTurns * 2
    ensures Stuck(Run(FRESH, Spoken(n, false), c), [], c)
    ensures Run(Run(FRESH, Spoken(n, false), c), events, c).summary == None
  {
    var s := Run(FRESH, Spoken(n, false), c);
    SpokenRun(n, false, c);
    EveryRunIsSound(Spoken(n, false), c);
    QuestionsAreStuck(s, n, c);
    StuckForever(s, [], events, c);
  }

  // ----- a trigger no window reaches -----

  lemma {:induction false} TurnsAreHalf(messages: seq<Message>, n: nat)
    requires n <= |messages|
    ensures 2 * |TurnsBefore(messages, n)| <= if TurnAt(messages, n - 1) then n + 1 else n
  {
    if n > 0 {
      TurnsAreHalf(messages, n - 1);
    }
  }

  lemma ChosenNeedsTrigger(messages: seq<Message>, summary: Option<Summary>, recent: set<int>, c: Config)
    requires c.trigger > c.batch + 1
    ensures Chosen(messages, summary, recent, c) == []
  {
    var window := NewMessages(messages, Coverage(summary), c);
    TurnsAreHalf(window, |window|);
  }

  /** A trigger above the batch size plus one, which the settings allow, disables the summary. */
  lemma {:induction false} HighTriggerNeverFires(events: seq<Event>, c: Config)
    requires c.trigger > c.batch + 1
    ensures Run(FRESH, events, c).summary == None && !Run(FRESH, events, c).worker.Waiting?
  {
    if events != [] {
      HighTriggerNeverFires(events[..|events| - 1], c);
      var s := Run(FRESH, events[..|events| - 1], c);
      if s.worker.Looking? {
        ChosenNeedsTrigger(s.messages, s.summary, s.worker.recent, c);
      }
    }
  }

  // ----- every other trigger is reached -----

  /** The least values the settings accept. */
  predicate Configured(c: Config) {
    && c.trigger >= 2 && c.batch >= 2 && c.sourceChars >= 2000 && c.sourceBytes >= 6000
    && c.summaryChars >= 200 && c.recentTurns >= 1
  }

  lemma TurnsAfterPair(messages: seq<Message>, a: nat, b: nat, end: nat)
    requires b == a + 1 && end == b + 1 <= |messages| && TurnAt(messages, a)
    ensures TurnsBefore(messages, end) == TurnsBefore(messages, a) + [Turn(messages[a], messages[b])]
  {
    assert TurnsBefore(messages, b) == TurnsBefore(messages, a) + [Turn(messages[a], messages[b])];
    assert !TurnAt(messages, b);
  }

  lemma {:induction false} AnsweredTurns(messages: seq<Message>, n: nat, m: nat, end: nat)
    requires messages == Log(n, true) && 0 < m && end == 2 * m <= n
    ensures |TurnsBefore(messages, end)| == m
    ensures TurnsBefore(messages, end)[0] == Turn(messages[0], messages[1])
  {
    var a, b := end - 2, end - 1;
    TurnsAfterPair(messages, a, b, end);
    if m > 1 {
      AnsweredTurns(messages, n, m - 1, a);
    }
  }

  lemma ShortTurnFits(turns: seq<Turn>, c: Config)
    requires turns != [] && turns[0].user.content == "q" && turns[0].assistant.content == "q"
    requires c.sourceChars >= 2000 && c.sourceBytes >= 6000
    ensures SourceFits("", turns, c, 1)
  {
    var head, text := Head(""), TurnText(turns[0]);
    assert head == "NEW COMPLETE TURNS (untrusted):\n";
    FittingTextIsKept(head, c.sourceChars, c.sourceBytes);
    OneTurnText(turns);
    assert |head + text| <= 100;
  }

  lemma OneTurnText(turns: seq<Turn>)
    requires turns != []
    ensures TurnTexts(turns[..1]) == TurnText(turns[0])
  {
    var one := turns[..1];
    assert one == [turns[0]] && one[..0] == [];
    assert TurnTexts(one) == TurnTexts(one[..0]) + TurnText(one[0]);
  }

  lemma LogStart(m: nat, n: nat, answered: bool)
    requires m <= n
    ensures Log(n, answered)[..m] == Log(m, answered)
  {
  }

  lemma OldestMessages(messages: seq<Message>, n: nat, m: nat, c: Config)
    requires m == WindowSize(c) && n == m + c.recentTurns * 2 && messages == Log(n, true)
    ensures NewMessages(messages, 0, c) == Log(m, true)
    ensures Chronological(messages) && WindowIsPast(messages, 0, c)
  {
    NothingCoveredYet(messages);
    LongLogIsPast(messages, 0, c);
    LogStart(m, n, true);
    assert messages[0..] == messages;
  }

  lemma OldestAreAnswered(messages: seq<Message>, n: nat, w: nat, c: Config)
    requires n == 2 * w + c.recentTurns * 2 && w == c.batch + 1 && messages == Log(n, true)
    ensures |NewTurns(messages, 0, c)| == w && NewTurns(messages, 0, c)[0] == Turn(messages[0], messages[1])
    ensures Chronological(messages) && WindowIsPast(messages, 0, c)
  {
    var m := 2 * w;
    OldestMessages(messages, n, m, c);
    AnsweredTurns(Log(m, true), m, w, m);
  }

  lemma AnsweredTurnsAreChosen(messages: seq<Message>, n: nat, w: nat, c: Config)
    requires Configured(c) && c.trigger <= c.batch + 1
    requires n == 2 * w + c.recentTurns * 2 && w == c.batch + 1 && messages == Log(n, true)
    ensures Chosen(messages, None, RecentIds(messages, c), c) != []
  {
    var turns := NewTurns(messages, 0, c);
    OldestAreAnswered(messages, n, w, c);
    ShortTurnFits(turns[..Min(c.batch, |turns|)], c);
    AdvancesIff(messages, None, c);
  }

  lemma ShortReplyIsStored(s: State, c: Config)
    requires Sound(s) && s.worker.Waiting? && s.worker.turns != [] && s.summary == None && c.summaryChars >= 200
    ensures Step(s, Reply(Some("s")), c).summary.Some?
  {
    var turns := s.worker.turns;
    assert turns[|turns| - 1] in turns;
    var p := TurnEndsInLog(s.messages, turns[|turns| - 1]);
    assert s.messages[p + 1] in s.messages;
    FittingTextIsKept("s", c.summaryChars, c.summaryChars * 3);
    assert !Blank("s") by {
      assert !IsSpace("s"[0]);
    }
  }

  lemma SomeRunStores(c: Config) returns (events: seq<Event>)
    requires Configured(c) && c.trigger <= c.batch + 1
    ensures Run(FRESH, events, c).summary.Some?
  {
    var w := c.batch + 1;
    var n := 2 * w + c.recentTurns * 2;
    SpokenRun(n, true, c);
    AnsweredTurnsAreChosen(Log(n, true), n, w, c);
    var talked := Spoken(n, true);
    RunNext(FRESH, talked, ReadRecent, c);
    RunNext(FRESH, talked + [ReadRecent], ReadNew, c);
    var asked := talked + [ReadRecent] + [ReadNew];
    EveryRunIsSound(asked, c);
    RunNext(FRESH, asked, Reply(Some("s")), c);
    ShortReplyIsStored(Run(FRESH, asked, c), c);
    events := asked + [Reply(Some("s"))];
  }

  /** Some run stores a summary exactly when the trigger is at most the batch size plus one. */
  lemma SummaryIsStoredIff(c: Config)
    requires Configured(c)
    ensures (exists events :: Run(FRESH, events, c).summary.Some?) <==> c.trigger <= c.batch + 1
  {
    if c.trigger <= c.batch + 1 {
      var events := SomeRunStores(c);
    } else {
      forall events ensures Run(FRESH, events, c).summary == None {
        HighTriggerNeverFires(events, c);
      }
    }
  }
}
