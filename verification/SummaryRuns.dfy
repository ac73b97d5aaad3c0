/** Runs of the summary worker: arriving messages interleaved with refreshes. */
module SummaryRuns {
  import opened Options
  import opened Turns
  import opened Summaries
  import opened SummaryLaws
  import Seqs

  // ----- what every interleaving keeps -----

  /** Turns of the log ending in `(after, upto]`, each once and in order. */
  ghost predicate TurnsWithin(turns: seq<Turn>, messages: seq<Message>, after: int, upto: int) {
    Ascending(turns) && forall t :: t in turns ==> t in CompleteTurns(messages) && after < t.assistant.id <= upto
  }

  ghost predicate EndsTurn(messages: seq<Message>, id: int) {
    exists t :: t in CompleteTurns(messages) && t.assistant.id == id
  }

  function LastId(messages: seq<Message>): int {
    if messages == [] then 0 else messages[|messages| - 1].id
  }

  /** The coverage ends a complete turn, and the turns summarized so far end within it, each once. */
  ghost predicate Sound(s: State) {
    && Chronological(s.messages)
    && (s.summary.Some? ==> s.summary.value.covered > 0 && EndsTurn(s.messages, s.summary.value.covered))
    && TurnsWithin(s.summarized, s.messages, 0, Coverage(s.summary))
    && (s.worker.Waiting? ==> TurnsWithin(s.worker.turns, s.messages, Coverage(s.summary), LastId(s.messages)))
  }

  lemma AppendStaysChronological(messages: seq<Message>, gap: nat, created: int, role: Role, content: string)
    requires Chronological(messages)
    ensures Chronological(messages + [Message(NextId(messages, gap), role, content, created)])
  {
  }

  lemma TurnEndsInLog(messages: seq<Message>, t: Turn) returns (p: nat)
    requires Chronological(messages) && t in CompleteTurns(messages)
    ensures TurnAt(messages, p) && t == Turn(messages[p], messages[p + 1]) && 0 < t.assistant.id <= LastId(messages)
  {
    TurnsAreAdjacent(messages, |messages|, t);
    p :| TurnAt(messages, p) && t == Turn(messages[p], messages[p + 1]);
  }

  lemma PrefixAscends(part: seq<Turn>, whole: seq<Turn>)
    requires Ascending(whole) && part <= whole
    ensures Ascending(part) && forall t :: t in part ==> t in whole
  {
    assert forall i :: 0 <= i < |part| ==> part[i] == whole[i];
  }

  lemma ChosenAreNew(messages: seq<Message>, summary: Option<Summary>, recent: set<int>, c: Config, turns: seq<Turn>,
                     chosen: seq<Turn>)
    requires Chronological(messages)
    requires turns == NewTurns(messages, Coverage(summary), c)
    requires chosen == Chosen(messages, summary, recent, c)
    ensures Ascending(chosen) && forall t :: t in chosen ==> t in turns && t.assistant.id !in recent
  {
    ChosenIsTaken(messages, summary, recent, c);
    NewTurnsAscend(messages, Coverage(summary), c);
    NotRecentTurns(turns, recent);
    PrefixAscends(chosen, NotRecent(turns, recent));
  }

  lemma NewTurnIsWithin(messages: seq<Message>, covered: int, c: Config, t: Turn)
    requires Chronological(messages) && t in NewTurns(messages, covered, c)
    ensures t in CompleteTurns(messages) && covered < t.assistant.id <= LastId(messages)
  {
    var p := NewTurnPosition(messages, covered, c, t);
  }

  lemma ChosenAreTurnsWithin(messages: seq<Message>, summary: Option<Summary>, recent: set<int>, c: Config,
                             chosen: seq<Turn>)
    requires Chronological(messages) && chosen == Chosen(messages, summary, recent, c)
    ensures TurnsWithin(chosen, messages, Coverage(summary), LastId(messages))
  {
    ChosenAreNew(messages, summary, recent, c, NewTurns(messages, Coverage(summary), c), chosen);
    forall t | t in chosen
      ensures t in CompleteTurns(messages) && Coverage(summary) < t.assistant.id <= LastId(messages)
    {
      NewTurnIsWithin(messages, Coverage(summary), c, t);
    }
  }

  lemma TurnsJoin(a: seq<Turn>, b: seq<Turn>, messages: seq<Message>, mid: int, upto: int)
    requires b != [] && upto == EndId(b)
    requires TurnsWithin(a, messages, 0, mid) && TurnsWithin(b, messages, mid, LastId(messages)) && mid >= 0
    ensures TurnsWithin(a + b, messages, 0, upto) && EndsTurn(messages, upto) && mid < upto
  {
    assert b[|b| - 1] in b;
    forall t | t in b ensures t.assistant.id <= upto {
      var i :| 0 <= i < |b| && b[i] == t;
    }
    forall i, j | 0 <= i < j < |a + b| ensures (a + b)[i].assistant.id < (a + b)[j].assistant.id {
      if i < |a| <= j {
        assert a[i] in a && b[j - |a|] in b;
      }
    }
  }

  lemma StepKeepsSound(s: State, e: Event, c: Config)
    requires Sound(s)
    ensures Sound(Step(s, e, c))
    ensures Coverage(s.summary) <= Coverage(Step(s, e, c).summary)
    ensures Coverage(s.summary) < Coverage(Step(s, e, c).summary) || Step(s, e, c).summary == s.summary
  {
    match e
    case Append(gap, created, role, content) =>
      AppendStaysChronological(s.messages, gap, created, role, content);
      TurnsGrow(s.messages, Message(NextId(s.messages, gap), role, content, created));
    case ReadRecent =>
    case ReadNew =>
      if s.worker.Looking? {
        ChosenAreTurnsWithin(s.messages, s.summary, s.worker.recent, c,
                             Chosen(s.messages, s.summary, s.worker.recent, c));
      }
    case Reply(text) =>
      if s.worker.Waiting? && s.worker.turns != [] {
        var turns := s.worker.turns;
        TurnsJoin(s.summarized, turns, s.messages, Coverage(s.summary), EndId(turns));
      }
  }

  /** Every run is sound: coverage ends a complete turn and no turn is summarized twice. */
  lemma {:induction false} EveryRunIsSound(events: seq<Event>, c: Config)
    ensures Sound(Run(FRESH, events, c))
  {
    if events != [] {
      EveryRunIsSound(events[..|events| - 1], c);
      StepKeepsSound(Run(FRESH, events[..|events| - 1], c), events[|events| - 1], c);
    }
  }

  /** Coverage never decreases along a run. */
  lemma {:induction false} CoverageNeverDecreases(events: seq<Event>, n: nat, c: Config)
    requires n <= |events|
    ensures Coverage(Run(FRESH, events[..n], c).summary) <= Coverage(Run(FRESH, events, c).summary)
  {
    if n == |events| {
      assert events[..n] == events;
    } else {
      var front := events[..|events| - 1];
      assert front[..n] == events[..n];
      CoverageNeverDecreases(front, n, c);
      EveryRunIsSound(front, c);
      StepKeepsSound(Run(FRESH, front, c), events[|events| - 1], c);
    }
  }

  // ----- which runs summarize every turn they cover -----

  /** The summarized turns are all complete turns up to the coverage, in order and each once. */
  ghost predicate Gapless(s: State) {
    CompleteTurns(Covered(s.messages, Coverage(s.summary))) == s.summarized
  }

  /** `turns` are all complete turns from the coverage up to the last of them. */
  ghost predicate Continues(messages: seq<Message>, covered: int, turns: seq<Turn>) {
    turns != []
    ==> CompleteTurns(Covered(messages, EndId(turns))) == CompleteTurns(Covered(messages, covered)) + turns
  }

  /** The rows met the guard at the last read that ended a look of the worker. */
  predicate ReadMetGuard(events: seq<Event>, c: Config) {
    if events == [] then true
    else
      var front, s := events[..|events| - 1], Run(FRESH, events[..|events| - 1], c);
      if events[|events| - 1].ReadNew? && s.worker.Looking? then SkipsNothing(s.messages, s.summary, s.worker.recent, c)
      else ReadMetGuard(front, c)
  }

  /** The event stores a summary. */
  predicate Stores(s: State, e: Event, c: Config) {
    && e.Reply? && e.text.Some? && s.worker.Waiting? && s.worker.turns != []
    && Storable(s.messages, s.summary, StoredText(e.text.value, c), EndId(s.worker.turns))
  }

  /** Every refresh that stored a summary met the guard at its second read. */
  predicate StoredMetGuard(events: seq<Event>, c: Config) {
    if events == [] then true
    else
      var front := events[..|events| - 1];
      && StoredMetGuard(front, c)
      && (Stores(Run(FRESH, front, c), events[|events| - 1], c) ==> ReadMetGuard(front, c))
  }

  /** A message appended later is not covered. */
  lemma CoveredIsStable(messages: seq<Message>, m: Message, id: int)
    requires id < m.id
    ensures Covered(messages + [m], id) == Covered(messages, id)
  {
    var all := messages + [m];
    Seqs.DropLast(messages, m);
    assert Upto(all, id) == Upto(messages, id);
  }

  lemma CoverageIsInLog(s: State)
    requires Sound(s)
    ensures 0 <= Coverage(s.summary) <= LastId(s.messages)
  {
    if s.summary.Some? {
      var t :| t in CompleteTurns(s.messages) && t.assistant.id == Coverage(s.summary);
      var p := TurnEndsInLog(s.messages, t);
    }
  }

  /** The message at the end of the coverage is not the first of a turn. */
  lemma CoverageIsACut(s: State)
    requires Sound(s)
    ensures !TurnAt(s.messages, Upto(s.messages, Coverage(s.summary)) - 1)
  {
    UptoSplits(s.messages, Coverage(s.summary));
    if s.summary.Some? {
      var t :| t in CompleteTurns(s.messages) && t.assistant.id == Coverage(s.summary);
      var p := TurnEndsInLog(s.messages, t);
      UptoOwnId(s.messages, p + 1);
    }
  }

  lemma SamePrefix<T>(x: seq<T>, a: seq<T>, b: seq<T>)
    requires x + a == x + b
    ensures a == b
  {
    Seqs.DropPrefix(x, a);
    Seqs.DropPrefix(x, b);
  }

  /** New turns that end in one of the log continue the coverage exactly when they are the first. */
  lemma ContinuesIffPrefix(messages: seq<Message>, covered: int, c: Config, turns: seq<Turn>, chosen: seq<Turn>)
    requires Chronological(messages) && !TurnAt(messages, Upto(messages, covered) - 1)
    requires turns == NewTurns(messages, covered, c)
    requires chosen != [] && chosen[|chosen| - 1] in turns
    ensures Continues(messages, covered, chosen) <==> chosen <= turns
  {
    var before := CompleteTurns(Covered(messages, covered));
    if chosen <= turns {
      var n := |chosen|;
      assert turns[..n] == chosen && turns[n - 1] == chosen[n - 1];
      PrefixContinuesCoverage(messages, covered, c, turns, n);
    } else if Continues(messages, covered, chosen) {
      var k :| 0 <= k < |turns| && turns[k] == chosen[|chosen| - 1];
      ThroughTurn(messages, covered, c, turns, k);
      SamePrefix(before, chosen, turns[..k] + [turns[k]]);
      Seqs.TakeNext(turns, k);
    }
  }

  lemma ReadContinuesIff(s: State, c: Config, chosen: seq<Turn>)
    requires Sound(s) && s.worker.Looking?
    requires chosen == Chosen(s.messages, s.summary, s.worker.recent, c) && chosen != []
    ensures Continues(s.messages, Coverage(s.summary), chosen)
        <==> SkipsNothing(s.messages, s.summary, s.worker.recent, c)
  {
    var turns := NewTurns(s.messages, Coverage(s.summary), c);
    CoverageIsACut(s);
    ChosenAreNew(s.messages, s.summary, s.worker.recent, c, turns, chosen);
    assert chosen[|chosen| - 1] in chosen;
    ContinuesIffPrefix(s.messages, Coverage(s.summary), c, turns, chosen);
    ChoiceLeavesNoGapIff(s.messages, s.summary, s.worker.recent, c, turns, chosen);
  }

  lemma AppendKeepsContinues(s: State, m: Message, turns: seq<Turn>)
    requires Sound(s) && m.id > LastId(s.messages)
    requires turns != [] ==> EndId(turns) <= LastId(s.messages)
    ensures Continues(s.messages + [m], Coverage(s.summary), turns)
        <==> Continues(s.messages, Coverage(s.summary), turns)
    ensures Covered(s.messages + [m], Coverage(s.summary)) == Covered(s.messages, Coverage(s.summary))
  {
    CoverageIsInLog(s);
    CoveredIsStable(s.messages, m, Coverage(s.summary));
    if turns != [] {
      CoveredIsStable(s.messages, m, EndId(turns));
    }
  }

  /** Every turn of the covered part ends within the coverage. */
  lemma CoveredTurnsEndWithin(messages: seq<Message>, id: int, t: Turn)
    requires Chronological(messages) && t in CompleteTurns(Covered(messages, id))
    ensures t.assistant.id <= id
  {
    var part := Covered(messages, id);
    TurnsAreAdjacent(part, |part|, t);
    UptoSplits(messages, id);
  }

  /** A joined list whose later part lies above a bound starts with what lies below it. */
  lemma SplitByEnd(low: seq<Turn>, early: seq<Turn>, late: seq<Turn>, bound: int)
    requires low <= early + late
    requires forall i :: 0 <= i < |low| ==> low[i].assistant.id <= bound
    requires forall i :: 0 <= i < |late| ==> late[i].assistant.id > bound
    ensures low <= early
  {
    if low != [] {
      var k := |low| - 1;
      assert low[k] == (early + late)[k];
    }
  }

  /** The turns of a larger coverage are those of the smaller one and later ones. */
  lemma CoverageGrows(messages: seq<Message>, low: int, high: int) returns (later: seq<Turn>)
    requires Chronological(messages) && low <= high && !TurnAt(messages, Upto(messages, low) - 1)
    ensures CompleteTurns(Covered(messages, high)) == CompleteTurns(Covered(messages, low)) + later
    ensures forall i :: 0 <= i < |later| ==> later[i].assistant.id > low
  {
    var part, m := Covered(messages, high), Upto(messages, low);
    UptoSplits(messages, low);
    UptoSplits(messages, high);
    if m > 0 {
      assert messages[m - 1].id <= low;
    }
    TurnsSplit(part, m);
    assert part[..m] == Covered(messages, low);
    var rest := part[m..];
    later := CompleteTurns(rest);
    forall i | 0 <= i < |later| ensures later[i].assistant.id > low {
      var p := TurnPosition(rest, |rest|, i);
      assert rest[p + 1] == messages[m + p + 1];
    }
  }

  /** After a stored refresh the summarized turns are all covered ones exactly when they were
      before and the new ones continue them. */
  lemma StoredIsGaplessIff(s: State, turns: seq<Turn>)
    requires Sound(s) && s.worker == Waiting(turns) && turns != []
    ensures CompleteTurns(Covered(s.messages, EndId(turns))) == s.summarized + turns
        <==> Gapless(s) && Continues(s.messages, Coverage(s.summary), turns)
  {
    var covered := Coverage(s.summary);
    var before := CompleteTurns(Covered(s.messages, covered));
    CoverageIsACut(s);
    assert turns[|turns| - 1] in turns;
    var later := CoverageGrows(s.messages, covered, EndId(turns));
    if before + later == s.summarized + turns {
      forall i | 0 <= i < |before| ensures before[i].assistant.id <= covered {
        CoveredTurnsEndWithin(s.messages, covered, before[i]);
      }
      assert forall i :: 0 <= i < |turns| ==> turns[i] in turns;
      assert forall i :: 0 <= i < |s.summarized| ==> s.summarized[i] in s.summarized;
      SplitByEnd(before, s.summarized, turns, covered);
      SplitByEnd(s.summarized, before, later, covered);
    }
  }

  /** The state of a run and its guards: what is waiting continues the coverage exactly when it
      was read under the guard, and nothing is missing exactly when all that was stored was. */
  ghost predicate Judged(s: State, events: seq<Event>, c: Config) {
    && (Gapless(s) <==> StoredMetGuard(events, c))
    && (s.worker.Waiting? && s.worker.turns != []
        ==> (Continues(s.messages, Coverage(s.summary), s.worker.turns) <==> ReadMetGuard(events, c)))
  }

  lemma StepIsJudged(events: seq<Event>, e: Event, s: State, c: Config)
    requires s == Run(FRESH, events, c) && Sound(s) && Judged(s, events, c)
    ensures Judged(Step(s, e, c), events + [e], c)
  {
    Seqs.DropLast(events, e);
    match e
    case Append(gap, created, role, content) =>
      var turns := if s.worker.Waiting? then s.worker.turns else [];
      assert turns != [] ==> turns[|turns| - 1] in turns;
      AppendKeepsContinues(s, Message(NextId(s.messages, gap), role, content, created), turns);
    case ReadRecent =>
    case ReadNew =>
      if s.worker.Looking? {
        var chosen := Chosen(s.messages, s.summary, s.worker.recent, c);
        if chosen != [] {
          ReadContinuesIff(s, c, chosen);
        }
      }
    case Reply(text) =>
      if Stores(s, e, c) {
        StoredIsGaplessIff(s, s.worker.turns);
      }
  }

  lemma {:induction false} EveryRunIsJudged(events: seq<Event>, c: Config)
    ensures Judged(Run(FRESH, events, c), events, c)
  {
    if events != [] {
      var front, last := events[..|events| - 1], events[|events| - 1];
      EveryRunIsJudged(front, c);
      EveryRunIsSound(front, c);
      assert events == front + [last];
      StepIsJudged(front, last, Run(FRESH, front, c), c);
    }
  }

  /** In every run, the summarized turns are all complete turns up to the coverage, in order and
      each once, exactly when every refresh that stored a summary met the guard. */
  lemma GaplessIff(events: seq<Event>, c: Config)
    ensures Gapless(Run(FRESH, events, c)) <==> StoredMetGuard(events, c)
  {
    EveryRunIsJudged(events, c);
  }

  // ----- runs in which no message arrives between the two reads -----

  /** Every event finds the worker elsewhere than between its reads when a message arrives. */
  predicate Quiet(events: seq<Event>, c: Config) {
    forall i :: 0 <= i < |events| && events[i].Append? ==> !Run(FRESH, events[..i], c).worker.Looking?
  }

  /** The guard holds when both lists are read from one log whose times follow its ids: no new
      turn comes after the recent ones. */
  lemma SameLogSkipsNothing(messages: seq<Message>, summary: Option<Summary>, c: Config, recent: set<int>)
    requires Chronological(messages) && InTime(messages) && recent == RecentIds(messages, c)
    ensures SkipsNothing(messages, summary, recent, c)
  {
    var turns := NewTurns(messages, Coverage(summary), c);
    var kept, a := NotRecent(turns, recent), Leading(turns, recent);
    LeadingAreKept(turns, recent, a);
    if a < |kept| {
      NewTurnsAscend(messages, Coverage(summary), c);
      KeptComesLater(turns, recent, a);
      KeptAreNotRecent(turns, recent, a);
      LaterIsRecent(messages, summary, c, turns[a], kept[a]);
    }
  }

  lemma KeptComesLater(turns: seq<Turn>, recent: set<int>, a: nat)
    requires Ascending(turns) && a == Leading(turns, recent) < |NotRecent(turns, recent)|
    ensures a < |turns| && NotRecent(turns, recent)[a] in turns
    ensures turns[a].assistant.id < NotRecent(turns, recent)[a].assistant.id
  {
    var kept := NotRecent(turns, recent);
    LeadingAreKept(turns, recent, a);
    NotRecentTurns(turns, recent);
    assert kept[a] in kept;
    var j :| 0 <= j < |turns| && turns[j] == kept[a];
    if a > 0 {
      assert kept[a - 1] == kept[..a][a - 1] == turns[a - 1];
    }
  }

  lemma LaterIsRecent(messages: seq<Message>, summary: Option<Summary>, c: Config, t: Turn, u: Turn)
    requires Chronological(messages) && InTime(messages)
    requires t in NewTurns(messages, Coverage(summary), c) && u in NewTurns(messages, Coverage(summary), c)
    requires t.assistant.id < u.assistant.id && t.assistant.id in RecentIds(messages, c)
    ensures u.assistant.id in RecentIds(messages, c)
  {
    var p := NewTurnPosition(messages, Coverage(summary), c, t);
    var q := NewTurnPosition(messages, Coverage(summary), c, u);
    assert p < q;
    RecentById(messages, c.recentTurns * 2, t.assistant);
    RecentById(messages, c.recentTurns * 2, u.assistant);
    NewerHasFewer(messages, t.assistant, u.assistant);
  }

  /** What is waiting was read under the guard, and what is recent is so in the present log. */
  ghost predicate Calm(s: State, events: seq<Event>, c: Config) {
    && StoredMetGuard(events, c) && (s.worker.Waiting? ==> ReadMetGuard(events, c))
    && (s.worker.Looking? ==> s.worker.recent == RecentIds(s.messages, c))
  }

  lemma StepStaysCalm(events: seq<Event>, e: Event, s: State, c: Config)
    requires s == Run(FRESH, events, c) && Chronological(s.messages) && InTime(s.messages) && Calm(s, events, c)
    requires e.Append? ==> !s.worker.Looking?
    ensures Calm(Step(s, e, c), events + [e], c)
  {
    Seqs.DropLast(events, e);
    if e.ReadNew? && s.worker.Looking? {
      SameLogSkipsNothing(s.messages, s.summary, c, s.worker.recent);
    }
  }

  lemma MessagesStay(s: State, e: Event, c: Config)
    requires InTime(Step(s, e, c).messages)
    ensures InTime(s.messages)
  {
    var after := Step(s, e, c).messages;
    assert forall i :: 0 <= i < |s.messages| ==> after[i] == s.messages[i];
  }

  lemma {:induction false} QuietRunsAreCalm(events: seq<Event>, c: Config)
    requires Quiet(events, c) && InTime(Run(FRESH, events, c).messages)
    ensures Calm(Run(FRESH, events, c), events, c)
  {
    if events != [] {
      var front, last := events[..|events| - 1], events[|events| - 1];
      assert forall i :: 0 <= i < |front| ==> front[i] == events[i] && front[..i] == events[..i];
      MessagesStay(Run(FRESH, front, c), last, c);
      QuietRunsAreCalm(front, c);
      EveryRunIsSound(front, c);
      assert events == front + [last];
      StepStaysCalm(front, last, Run(FRESH, front, c), c);
    }
  }

  /** Without a message between the two reads of a refresh, and with times that follow the ids,
      nothing is ever missing. */
  lemma QuietRunsAreGapless(events: seq<Event>, c: Config)
    requires Quiet(events, c) && InTime(Run(FRESH, events, c).messages)
    ensures Gapless(Run(FRESH, events, c))
  {
    QuietRunsAreCalm(events, c);
    GaplessIff(events, c);
  }
}
