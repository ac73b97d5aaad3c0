/** What every run of messages and refreshes keeps, and when coverage cannot advance. */
module SummaryLaws {
  import opened Numbers
  import opened Options
  import opened Turns
  import opened Summaries
  import Seqs

  // ----- complete turns of a log -----

  lemma {:induction false} TurnsAreAdjacent(messages: seq<Message>, n: nat, turn: Turn)
    requires n <= |messages|
    ensures turn in TurnsBefore(messages, n)
        <==> exists i :: i < n && TurnAt(messages, i) && turn == Turn(messages[i], messages[i + 1])
  {
    if n > 0 {
      TurnsAreAdjacent(messages, n - 1, turn);
      if TurnAt(messages, n - 1) {
        assert Turn(messages[n - 1], messages[n]) in TurnsBefore(messages, n);
      }
    }
  }

  /** The `k`-th turn sits at one position, with the earlier turns before it. */
  lemma {:induction false} TurnPosition(messages: seq<Message>, n: nat, k: nat) returns (p: nat)
    requires n <= |messages| && k < |TurnsBefore(messages, n)|
    ensures p < n && TurnAt(messages, p)
    ensures TurnsBefore(messages, n)[k] == Turn(messages[p], messages[p + 1])
    ensures TurnsBefore(messages, p) == TurnsBefore(messages, n)[..k]
  {
    if k < |TurnsBefore(messages, n - 1)| {
      p := TurnPosition(messages, n - 1, k);
    } else {
      p := n - 1;
    }
  }

  lemma {:induction false} EarlierTurnsEndEarlier(messages: seq<Message>, n: nat, k: nat, l: nat)
    requires Chronological(messages) && n <= |messages| && k < l < |TurnsBefore(messages, n)|
    ensures TurnsBefore(messages, n)[k].assistant.id < TurnsBefore(messages, n)[l].assistant.id
  {
    var q := TurnPosition(messages, n, l);
    var p := TurnPosition(messages, q, k);
  }

  /** The log up to and including the message `id`. */
  function Covered(messages: seq<Message>, id: int): seq<Message> {
    messages[..Upto(messages, id)]
  }

  /** A prefix of the new turns continues the covered turns without a gap. */
  lemma PrefixContinuesCoverage(messages: seq<Message>, covered: int, c: Config, turns: seq<Turn>, n: nat)
    requires Chronological(messages) && !TurnAt(messages, Upto(messages, covered) - 1)
    requires turns == NewTurns(messages, covered, c) && 0 < n <= |turns|
    ensures CompleteTurns(Covered(messages, turns[n - 1].assistant.id))
         == CompleteTurns(Covered(messages, covered)) + turns[..n]
  {
    var k := n - 1;
    ThroughTurn(messages, covered, c, turns, k);
    Seqs.TakeNext(turns, k);
  }

  lemma ThroughTurn(messages: seq<Message>, covered: int, c: Config, turns: seq<Turn>, k: nat)
    requires Chronological(messages) && !TurnAt(messages, Upto(messages, covered) - 1)
    requires turns == NewTurns(messages, covered, c) && k < |turns|
    ensures CompleteTurns(Covered(messages, turns[k].assistant.id))
         == CompleteTurns(Covered(messages, covered)) + (turns[..k] + [turns[k]])
  {
    var start := Upto(messages, covered);
    var window := NewMessages(messages, covered, c);
    var p := TurnPosition(window, |window|, k);
    NewMessagesAreASlice(messages, covered, c, start, window);
    ThroughPosition(messages, start, window, p, start + p + 1);
  }

  lemma ThroughPosition(messages: seq<Message>, start: nat, window: seq<Message>, p: nat, q: nat)
    requires Chronological(messages) && q == start + p + 1 && start + |window| <= |messages|
    requires forall i :: 0 <= i < |window| ==> window[i] == messages[start + i]
    requires !TurnAt(messages, start - 1) && TurnAt(window, p)
    ensures CompleteTurns(Covered(messages, window[p + 1].id))
         == CompleteTurns(messages[..start]) + (TurnsBefore(window, p) + [Turn(window[p], window[p + 1])])
  {
    assert window[p + 1] == messages[q];
    UptoOwnId(messages, q);
    TurnsThrough(messages, start, window, p, q);
  }

  lemma NewMessagesAreASlice(messages: seq<Message>, covered: int, c: Config, start: nat, window: seq<Message>)
    requires start == Upto(messages, covered) && window == NewMessages(messages, covered, c)
    ensures start + |window| <= |messages| && |window| <= WindowSize(c)
    ensures forall i :: 0 <= i < |window| ==> window[i] == messages[start + i]
  {
  }

  /** The turns up to one that lies in a part of the log which starts at a cut. */
  lemma TurnsThrough(messages: seq<Message>, start: nat, window: seq<Message>, p: nat, q: nat)
    requires q == start + p + 1 < |messages| && start + |window| <= |messages|
    requires forall i :: 0 <= i < |window| ==> window[i] == messages[start + i]
    requires !TurnAt(messages, start - 1) && TurnAt(window, p)
    ensures CompleteTurns(messages[..q + 1])
         == CompleteTurns(messages[..start]) + (TurnsBefore(window, p) + [Turn(window[p], window[p + 1])])
  {
    var prefix := messages[..q + 1];
    TurnsSplit(prefix, start);
    assert prefix[..start] == messages[..start];
    assert prefix[start..] == window[..p + 2];
    TurnsEndAt(window, p);
  }

  lemma TurnsEndAt(messages: seq<Message>, p: nat)
    requires TurnAt(messages, p)
    ensures CompleteTurns(messages[..p + 2]) == TurnsBefore(messages, p) + [Turn(messages[p], messages[p + 1])]
  {
    var cut := messages[..p + 2];
    TurnsOfPrefix(messages, p + 2, p);
    assert TurnAt(cut, p) && !TurnAt(cut, p + 1);
    assert TurnsBefore(cut, p + 1) == TurnsBefore(cut, p) + [Turn(messages[p], messages[p + 1])];
  }

  /** Appending a message keeps the turns and may complete one. */
  lemma TurnsGrow(messages: seq<Message>, m: Message)
    ensures CompleteTurns(messages) <= CompleteTurns(messages + [m])
  {
    var all, n := messages + [m], |messages|;
    if n > 0 {
      Seqs.DropLast(messages, m);
      TurnsOfPrefix(all, n, n - 1);
      assert !TurnAt(messages, n - 1);
      assert TurnsBefore(messages, n) == TurnsBefore(messages, n - 1);
    }
    assert TurnsBefore(all, n) <= TurnsBefore(all, n + 1);
  }

  // ----- the eligible turns -----

  ghost predicate Ascending(turns: seq<Turn>) {
    forall i, j :: 0 <= i < j < |turns| ==> turns[i].assistant.id < turns[j].assistant.id
  }

  lemma {:induction false} NotRecentMembers(turns: seq<Turn>, recent: set<int>)
    ensures forall t :: t in NotRecent(turns, recent) <==> t in turns && t.assistant.id !in recent
  {
    if turns != [] {
      var front, last := turns[..|turns| - 1], turns[|turns| - 1];
      NotRecentMembers(front, recent);
      assert turns == front + [last];
    }
  }

  lemma {:induction false} NotRecentTurns(turns: seq<Turn>, recent: set<int>)
    requires Ascending(turns)
    ensures Ascending(NotRecent(turns, recent))
    ensures forall t :: t in NotRecent(turns, recent) <==> t in turns && t.assistant.id !in recent
  {
    NotRecentMembers(turns, recent);
    if turns != [] {
      var front, last := turns[..|turns| - 1], turns[|turns| - 1];
      NotRecentTurns(front, recent);
      forall t | t in front ensures t.assistant.id < last.assistant.id {
        var i :| 0 <= i < |front| && front[i] == t;
        assert turns[i] == t;
      }
      AscendingMore(NotRecent(front, recent), last);
    }
  }

  lemma AscendingMore(turns: seq<Turn>, last: Turn)
    requires Ascending(turns) && forall t :: t in turns ==> t.assistant.id < last.assistant.id
    ensures Ascending(turns + [last])
  {
  }

  lemma {:induction false} NoneRecent(turns: seq<Turn>, recent: set<int>)
    requires forall t :: t in turns ==> t.assistant.id !in recent
    ensures NotRecent(turns, recent) == turns
  {
    if turns != [] {
      var front, last := turns[..|turns| - 1], turns[|turns| - 1];
      assert turns == front + [last];
      NoneRecent(front, recent);
    }
  }

  /** How many turns come before the first recent one. */
  function Leading(turns: seq<Turn>, recent: set<int>): (a: nat)
    ensures a <= |turns|
  {
    if turns == [] then 0
    else
      var front, last := turns[..|turns| - 1], turns[|turns| - 1];
      if Leading(front, recent) == |front| && last.assistant.id !in recent then |turns| else Leading(front, recent)
  }

  /** The leading turns are kept, and the next one, if any, is recent. */
  lemma {:induction false} LeadingAreKept(turns: seq<Turn>, recent: set<int>, a: nat)
    requires a == Leading(turns, recent)
    ensures a <= |NotRecent(turns, recent)| && NotRecent(turns, recent)[..a] == turns[..a]
    ensures a < |turns| ==> turns[a].assistant.id in recent
    ensures a == |turns| ==> NotRecent(turns, recent) == turns
  {
    if turns != [] {
      var front, last := turns[..|turns| - 1], turns[|turns| - 1];
      assert turns == front + [last];
      LeadingAreKept(front, recent, Leading(front, recent));
    }
  }

  lemma {:induction false} KeptAreNotRecent(turns: seq<Turn>, recent: set<int>, i: nat)
    requires i < |NotRecent(turns, recent)|
    ensures NotRecent(turns, recent)[i].assistant.id !in recent
  {
    var front := turns[..|turns| - 1];
    if i < |NotRecent(front, recent)| {
      KeptAreNotRecent(front, recent, i);
    }
  }

  /** The first `n` of the turns that are not recent are the first `n` turns exactly when the
      first recent turn comes after them. */
  lemma KeptIsAPrefixIff(turns: seq<Turn>, recent: set<int>, n: nat)
    requires n <= |NotRecent(turns, recent)|
    ensures NotRecent(turns, recent)[..n] <= turns <==> n <= Leading(turns, recent)
  {
    var kept, a := NotRecent(turns, recent), Leading(turns, recent);
    LeadingAreKept(turns, recent, a);
    if n <= a {
      assert kept[..n] == kept[..a][..n] == turns[..n];
    } else if kept[..n] <= turns {
      assert kept[..n][a] == turns[a];
      KeptAreNotRecent(turns, recent, a);
    }
  }

  // ----- the recent messages -----

  /** Creation times follow the ids. */
  ghost predicate InTime(messages: seq<Message>) {
    forall i, j :: 0 <= i < j < |messages| ==> messages[i].created <= messages[j].created
  }

  /** The newer a message the fewer are newer still. */
  lemma {:induction false} NewerHasFewer(messages: seq<Message>, a: Message, b: Message)
    requires Newer(b, a)
    ensures NewerThan(messages, b) <= NewerThan(messages, a)
  {
    if messages != [] {
      NewerHasFewer(messages[..|messages| - 1], a, b);
    }
  }

  lemma NewerGrows(messages: seq<Message>, x: Message, m: Message)
    ensures NewerThan(messages, m) <= NewerThan(messages + [x], m)
  {
    Seqs.DropLast(messages, x);
  }

  /** In a log whose times follow its ids everything later is newer. */
  lemma {:induction false} LaterAreNewer(messages: seq<Message>, i: nat, n: nat)
    requires Chronological(messages) && InTime(messages) && i < n <= |messages|
    ensures NewerThan(messages[..n], messages[i]) + i + 1 >= n
  {
    var k := n - 1;
    if i < k {
      assert messages[..n][..k] == messages[..k];
      LaterAreNewer(messages, i, k);
      assert Newer(messages[k], messages[i]);
    }
  }

  lemma RecentById(messages: seq<Message>, limit: nat, m: Message)
    requires Chronological(messages) && m in messages
    ensures m.id in NewestIds(messages, limit) <==> NewerThan(messages, m) < limit
  {
    forall x | x in messages && x.id == m.id ensures x == m {
      var i :| 0 <= i < |messages| && messages[i] == x;
      var j :| 0 <= j < |messages| && messages[j] == m;
    }
  }

  /** Of the new turns `a` come before the first recent one, and `kept` are not recent: none of
      these follows the `a`, or the batch or the source budget ends with them. */
  predicate GuardMet(existing: string, kept: seq<Turn>, a: nat, c: Config) {
    || |kept| <= a
    || c.batch <= a
    || !SourceFits(existing, kept[..Min(c.batch, |kept|)], c, a + 1)
  }

  /** The refresh that sees these rows skips no turn. */
  predicate SkipsNothing(messages: seq<Message>, summary: Option<Summary>, recent: set<int>, c: Config) {
    var turns := NewTurns(messages, Coverage(summary), c);
    GuardMet(Content(summary), NotRecent(turns, recent), Leading(turns, recent), c)
  }

  lemma NoneBeyondIff(existing: string, kept: seq<Turn>, batch: seq<Turn>, a: nat, next: nat, n: nat, c: Config)
    requires batch == kept[..Min(c.batch, |kept|)] && next == a + 1 && n == Included(existing, batch, c)
    ensures n <= a <==> GuardMet(existing, kept, a, c)
  {
    if a < |batch| {
      IncludedIsLargest(existing, batch, next, c);
      assert SourceFits(existing, batch, c, next) <==> !GuardMet(existing, kept, a, c);
    }
  }

  lemma PickIsAPrefixIff(existing: string, turns: seq<Turn>, recent: set<int>, c: Config,
                         kept: seq<Turn>, batch: seq<Turn>, a: nat, n: nat)
    requires kept == NotRecent(turns, recent) && batch == kept[..Min(c.batch, |kept|)]
    requires a == Leading(turns, recent) && n == Included(existing, batch, c)
    ensures kept[..n] <= turns <==> GuardMet(existing, kept, a, c)
    ensures batch[..n] == kept[..n]
  {
    KeptIsAPrefixIff(turns, recent, n);
    NoneBeyondIff(existing, kept, batch, a, a + 1, n, c);
    Seqs.SliceOfSlice(kept, 0, |batch|, n);
  }

  /** The turns chosen are a prefix of the new ones exactly when the rows read meet that guard,
      whatever the earlier read took for recent. */
  lemma ChoiceLeavesNoGapIff(messages: seq<Message>, summary: Option<Summary>, recent: set<int>, c: Config,
                             turns: seq<Turn>, chosen: seq<Turn>)
    requires turns == NewTurns(messages, Coverage(summary), c)
    requires chosen == Chosen(messages, summary, recent, c) && chosen != []
    ensures chosen <= turns <==> SkipsNothing(messages, summary, recent, c)
  {
    var kept := NotRecent(turns, recent);
    var batch := kept[..Min(c.batch, |kept|)];
    ChosenIsPick(messages, summary, recent, c, batch);
    PickIsAPrefixIff(Content(summary), turns, recent, c, kept, batch,
                     Leading(turns, recent), Included(Content(summary), batch, c));
  }

  lemma ChosenIsPick(messages: seq<Message>, summary: Option<Summary>, recent: set<int>, c: Config, batch: seq<Turn>)
    requires Chosen(messages, summary, recent, c) != []
    requires var kept := NotRecent(NewTurns(messages, Coverage(summary), c), recent);
             batch == kept[..Min(c.batch, |kept|)]
    ensures Chosen(messages, summary, recent, c) == batch[..Included(Content(summary), batch, c)]
  {
  }

  /** The turns chosen are the first of those not recent. */
  lemma ChosenIsTaken(messages: seq<Message>, summary: Option<Summary>, recent: set<int>, c: Config)
    ensures Chosen(messages, summary, recent, c) <= NotRecent(NewTurns(messages, Coverage(summary), c), recent)
  {
  }

  lemma NewTurnsAscend(messages: seq<Message>, covered: int, c: Config)
    requires Chronological(messages)
    ensures Ascending(NewTurns(messages, covered, c))
  {
    var window, turns := NewMessages(messages, covered, c), NewTurns(messages, covered, c);
    assert Chronological(window);
    forall k, l | 0 <= k < l < |turns| ensures turns[k].assistant.id < turns[l].assistant.id {
      EarlierTurnsEndEarlier(window, |window|, k, l);
    }
  }

  /** Each new turn is a turn of the log after the coverage. */
  lemma NewTurnPosition(messages: seq<Message>, covered: int, c: Config, t: Turn) returns (p: nat)
    requires Chronological(messages) && t in NewTurns(messages, covered, c)
    ensures TurnAt(messages, p) && t == Turn(messages[p], messages[p + 1]) && t.user.id > covered
    ensures t in CompleteTurns(messages) && p + 1 < Upto(messages, covered) + WindowSize(c)
  {
    var window, start := NewMessages(messages, covered, c), Upto(messages, covered);
    var k :| 0 <= k < |CompleteTurns(window)| && CompleteTurns(window)[k] == t;
    var i := TurnPosition(window, |window|, k);
    p := start + i;
    assert window[i] == messages[p] && window[i + 1] == messages[p + 1];
    UptoSplits(messages, covered);
    TurnsAreAdjacent(messages, |messages|, t);
  }
}
