/** Which messages and turns a refresh takes, and what its prompt holds:
    src/zglab_rag/conversation/summary.py. */
module SummaryChoice {
  import opened Context
  import opened Filtering
  import opened Numbers
  import opened Options
  import opened Turns
  import opened Summaries
  import Seqs

  lemma {:induction false} TextsSplit(turns: seq<Turn>, i: nat)
    requires i < |turns|
    ensures exists rest :: TurnTexts(turns) == TurnTexts(turns[..i]) + TurnText(turns[i]) + rest
  {
    var n := |turns| - 1;
    TextsOfTake(turns, n);
    Seqs.TakeAll(turns);
    if i < n {
      TextsSplit(turns[..n], i);
      var rest :| TurnTexts(turns[..n]) == TurnTexts(turns[..n][..i]) + TurnText(turns[..n][i]) + rest;
      assert turns[..n][..i] == turns[..i];
      Seqs.AppendAssoc(TurnTexts(turns[..i]) + TurnText(turns[i]), rest, TurnText(turns[n]));
      assert TurnTexts(turns) == TurnTexts(turns[..i]) + TurnText(turns[i]) + (rest + TurnText(turns[n]));
    } else {
      Seqs.AppendEmpty(TurnTexts(turns));
    }
  }

  /** The text holds `user` from `p` on and `assistant` from `q` on, each under its label. */
  predicate Quotes(text: string, user: string, assistant: string, p: nat, q: nat) {
    && 6 <= p && p + |user| + 12 == q && q + |assistant| + 2 <= |text|
    && text[p - 6..p] == "USER: " && text[p..p + |user|] == user
    && text[p + |user|..q] == "\nASSISTANT: " && text[q..q + |assistant|] == assistant
    && text[q + |assistant|..q + |assistant| + 2] == "\n\n"
  }

  lemma TextQuotes(before: string, turn: Turn, rest: string, p: nat, q: nat)
    requires p == |before| + 6 && q == p + |turn.user.content| + 12
    ensures Quotes(before + TurnText(turn) + rest, turn.user.content, turn.assistant.content, p, q)
  {
    var user, assistant := turn.user.content, turn.assistant.content;
    var text := before + TurnText(turn) + rest;
    assert text == before + ("USER: " + (user + ("\nASSISTANT: " + (assistant + ("\n\n" + rest)))));
  }

  /** Where the `i`-th turn's question starts after an opening. */
  function QuestionAt(opening: string, turns: seq<Turn>, i: nat): nat
    requires i <= |turns|
  {
    |opening| + |TurnTexts(turns[..i])| + 6
  }

  lemma QuestionsInOrder(opening: string, turns: seq<Turn>, i: nat)
    requires i < |turns|
    ensures QuestionAt(opening, turns, i + 1)
         == QuestionAt(opening, turns, i) + |turns[i].user.content| + |turns[i].assistant.content| + 20
  {
    TextsOfTake(turns, i);
  }

  lemma RestOfPrompt(opening: string, turns: seq<Turn>, i: nat, before: string) returns (rest: string)
    requires i < |turns| && before == opening + TurnTexts(turns[..i])
    ensures opening + TurnTexts(turns) == before + TurnText(turns[i]) + rest
  {
    TextsSplit(turns, i);
    rest :| TurnTexts(turns) == TurnTexts(turns[..i]) + TurnText(turns[i]) + rest;
    Regroup(opening, TurnTexts(turns[..i]), TurnText(turns[i]), rest);
  }

  lemma Regroup(a: string, b: string, c: string, d: string)
    ensures a + (b + c + d) == a + b + c + d
  {
  }

  lemma TurnIsQuoted(opening: string, turns: seq<Turn>, i: nat, p: nat, q: nat)
    requires i < |turns| && p == QuestionAt(opening, turns, i) && q == p + |turns[i].user.content| + 12
    ensures Quotes(opening + TurnTexts(turns), turns[i].user.content, turns[i].assistant.content, p, q)
  {
    var before := opening + TurnTexts(turns[..i]);
    var rest := RestOfPrompt(opening, turns, i, before);
    TextQuotes(before, turns[i], rest, p, q);
  }

  /** Each included turn's question and answer stand in the prompt whole and labelled, the answer
      after the question, and each turn after the one before. */
  lemma PromptQuotesTurn(existing: string, turns: seq<Turn>, c: Config, opening: string, i: nat, p: nat, q: nat)
    requires opening == Opening(existing, c) && i < |turns|
    requires p == QuestionAt(opening, turns, i) && q == p + |turns[i].user.content| + 12
    ensures Quotes(Opening(existing, c) + TurnTexts(turns), turns[i].user.content, turns[i].assistant.content, p, q)
    ensures QuestionAt(opening, turns, i + 1) == q + |turns[i].assistant.content| + 8
  {
    TurnIsQuoted(opening, turns, i, p, q);
    QuestionsInOrder(opening, turns, i);
  }

  /** With room for the opening, the previous summary stands in the prompt whole, before the turns;
      a missing or empty one leaves no trace. */
  lemma PromptKeepsSummary(existing: string, turns: seq<Turn>, c: Config)
    requires Fits(Head(existing), c.sourceChars, c.sourceBytes)
    ensures existing != "" ==> exists before, after :: Opening(existing, c) == before + existing + after
    ensures existing == "" ==> Opening(existing, c) == "NEW COMPLETE TURNS (untrusted):\n"
  {
    FittingTextIsKept(Head(existing), c.sourceChars, c.sourceBytes);
    if existing != "" {
      var before, after := "PREVIOUS SUMMARY (untrusted):\n", "\n\nNEW COMPLETE TURNS (untrusted):\n";
      assert Head(existing) == before + existing + after;
    }
  }

  // ----- the two queries -----

  /** Message `k` was created later than `m`, or together with it under a larger id. */
  predicate CameLater(messages: seq<Message>, m: Message, k: nat)
    requires k < |messages|
  {
    messages[k].created > m.created || (messages[k].created == m.created && messages[k].id > m.id)
  }

  function Later(messages: seq<Message>, m: Message): set<nat> {
    set k: nat | k < |messages| && CameLater(messages, m, k)
  }

  lemma {:induction false} LaterCounts(messages: seq<Message>, m: Message)
    ensures NewerThan(messages, m) == |Later(messages, m)|
  {
    if messages != [] {
      var n := |messages| - 1;
      LaterCounts(messages[..n], m);
      assert Later(messages, m) == Later(messages[..n], m) + if CameLater(messages, m, n) then {n} else {};
    }
  }

  /** The recent messages are the 2 * recentTurns created last, later ids last in a tie. */
  lemma RecentAreTheNewest(messages: seq<Message>, c: Config, id: int)
    ensures id in RecentIds(messages, c)
       <==> exists k :: 0 <= k < |messages| && messages[k].id == id
                        && |Later(messages, messages[k])| < 2 * c.recentTurns
  {
    forall m ensures NewerThan(messages, m) == |Later(messages, m)| {
      LaterCounts(messages, m);
    }
    if id in RecentIds(messages, c) {
      var m :| m in messages && NewerThan(messages, m) < c.recentTurns * 2 && m.id == id;
      var k :| 0 <= k < |messages| && messages[k] == m;
    }
  }

  /** The window is the oldest messages past the covered id, as many as the batch may need. */
  lemma WindowIsTheOldest(messages: seq<Message>, covered: int, c: Config) returns (a: nat, b: nat)
    requires Chronological(messages)
    ensures a <= b <= |messages| && NewMessages(messages, covered, c) == messages[a..b]
    ensures forall i :: 0 <= i < |messages| ==> (messages[i].id <= covered <==> i < a)
    ensures b - a <= 2 * (c.batch + 1) && (b < |messages| ==> b - a == 2 * (c.batch + 1))
  {
    UptoSplits(messages, covered);
    a := Upto(messages, covered);
    b := a + Min(WindowSize(c), |messages| - a);
  }

  // ----- the turns -----

  lemma {:induction false} NotRecentIsFilter(turns: seq<Turn>, recent: set<int>, p: Turn -> bool)
    requires forall t :: p(t) <==> t.assistant.id !in recent
    ensures NotRecent(turns, recent) == Filter(turns, p)
  {
    if turns != [] {
      NotRecentIsFilter(turns[..|turns| - 1], recent, p);
    }
  }

  /** As many turns from the start as the batch allows and the source holds. */
  predicate FirstThatFit(chosen: seq<Turn>, existing: string, eligible: seq<Turn>, c: Config) {
    var n := |chosen|;
    && n <= c.batch && n <= |eligible| && chosen == eligible[..n]
    && (n == 0 || SourceFits(existing, eligible, c, n))
    && (n == c.batch || n == |eligible| || !SourceFits(existing, eligible, c, n + 1))
  }

  lemma FitsInBatch(existing: string, eligible: seq<Turn>, c: Config, most: nat, n: nat)
    requires n <= most <= |eligible|
    ensures SourceFits(existing, eligible[..most], c, n) <==> SourceFits(existing, eligible, c, n)
  {
    assert eligible[..most][..n] == eligible[..n];
  }

  lemma BatchIsLargest(existing: string, eligible: seq<Turn>, c: Config, most: nat, n: nat)
    requires most <= |eligible| && n == Included(existing, eligible[..most], c)
    ensures n <= most && eligible[..most][..n] == eligible[..n]
    ensures n == 0 || SourceFits(existing, eligible, c, n)
    ensures n == most || !SourceFits(existing, eligible, c, n + 1)
  {
    if n > 0 {
      IncludedIsLargest(existing, eligible[..most], n, c);
      FitsInBatch(existing, eligible, c, most, n);
    }
    if n < most {
      IncludedIsLargest(existing, eligible[..most], n + 1, c);
      FitsInBatch(existing, eligible, c, most, n + 1);
    }
  }

  lemma BatchFits(existing: string, eligible: seq<Turn>, c: Config, most: nat)
    requires most == Min(c.batch, |eligible|)
    ensures FirstThatFit(eligible[..most][..Included(existing, eligible[..most], c)], existing, eligible, c)
  {
    BatchIsLargest(existing, eligible, c, most, Included(existing, eligible[..most], c));
  }

  /** A refresh takes the complete turns of the window that end before the recent messages, in
      order: none when fewer than the trigger are left, and otherwise as many from the start as
      the batch allows and the source holds. */
  lemma ChosenAreTheFirst(messages: seq<Message>, summary: Option<Summary>, recent: set<int>, c: Config,
                          eligible: seq<Turn>, p: Turn -> bool)
    requires forall t :: p(t) <==> t.assistant.id !in recent
    requires eligible == Filter(CompleteTurns(NewMessages(messages, Coverage(summary), c)), p)
    ensures if |eligible| < c.trigger then Chosen(messages, summary, recent, c) == []
            else FirstThatFit(Chosen(messages, summary, recent, c), Content(summary), eligible, c)
  {
    NotRecentIsFilter(NewTurns(messages, Coverage(summary), c), recent, p);
    BatchFits(Content(summary), eligible, c, Min(c.batch, |eligible|));
  }
}
