/** The incremental conversation summary: src/zglab_rag/conversation/summary.py with the message
    and summary tables of repositories.py.  One conversation, messages in the order of their ids;
    a message takes its creation time before its id, so the two orders need not agree. */
module Summaries {
  import opened Numbers
  import opened Options
  import opened Text
  import opened Turns
  import opened Context
  import Seqs

  datatype Config = Config(trigger: nat, batch: nat, sourceChars: nat, sourceBytes: nat,
                           summaryChars: nat, recentTurns: nat)

  datatype Summary = Summary(content: string, covered: int)

  /** A new row's id is larger than every other: ids of one conversation are positive and increase. */
  ghost predicate Chronological(messages: seq<Message>) {
    && (forall i :: 0 <= i < |messages| ==> messages[i].id > 0)
    && (forall i, j :: 0 <= i < j < |messages| ==> messages[i].id < messages[j].id)
  }

  // ----- the two queries -----

  /** How many messages have an id up to `id`. */
  function Upto(messages: seq<Message>, id: int): (n: nat)
    ensures n <= |messages|
  {
    if messages == [] then 0
    else if messages[|messages| - 1].id <= id then |messages|
    else Upto(messages[..|messages| - 1], id)
  }

  lemma {:induction false} UptoSplits(messages: seq<Message>, id: int)
    requires Chronological(messages)
    ensures forall i :: 0 <= i < |messages| ==> (messages[i].id <= id <==> i < Upto(messages, id))
  {
    if messages != [] && messages[|messages| - 1].id > id {
      UptoSplits(messages[..|messages| - 1], id);
      assert forall i :: 0 <= i < |messages| - 1 ==> messages[i] == messages[..|messages| - 1][i];
    }
  }

  lemma UptoOwnId(messages: seq<Message>, p: nat)
    requires Chronological(messages) && p < |messages|
    ensures Upto(messages, messages[p].id) == p + 1
  {
    UptoSplits(messages, messages[p].id);
    assert p + 1 < |messages| ==> messages[p].id < messages[p + 1].id;
  }

  /** The order of the first query: by creation time, then by id. */
  predicate Newer(a: Message, b: Message) {
    a.created > b.created || (a.created == b.created && a.id > b.id)
  }

  /** How many messages are newer than `m`. */
  function NewerThan(messages: seq<Message>, m: Message): nat {
    if messages == [] then 0
    else NewerThan(messages[..|messages| - 1], m) + if Newer(messages[|messages| - 1], m) then 1 else 0
  }

  /** The ids of the newest `limit` messages. */
  function NewestIds(messages: seq<Message>, limit: nat): set<int> {
    set m | m in messages && NewerThan(messages, m) < limit :: m.id
  }

  /** The messages that a refresh takes for recent. */
  function RecentIds(messages: seq<Message>, c: Config): set<int> {
    NewestIds(messages, c.recentTurns * 2)
  }

  /** The oldest `limit` messages after `id`. */
  function Window(messages: seq<Message>, id: int, limit: nat): seq<Message> {
    var rest := messages[Upto(messages, id)..];
    rest[..Min(limit, |rest|)]
  }

  // ----- the source prompt -----

  function TurnText(turn: Turn): string {
    "USER: " + turn.user.content + "\nASSISTANT: " + turn.assistant.content + "\n\n"
  }

  function TurnTexts(turns: seq<Turn>): string {
    if turns == [] then "" else TurnTexts(turns[..|turns| - 1]) + TurnText(turns[|turns| - 1])
  }

  function Head(existing: string): string {
    (if existing != "" then "PREVIOUS SUMMARY (untrusted):\n" + existing + "\n\n" else "")
    + "NEW COMPLETE TURNS (untrusted):\n"
  }

  function Opening(existing: string, c: Config): string {
    Truncated(Head(existing), c.sourceChars, c.sourceBytes)
  }

  /** The first `n` turns fit the source budget after the opening. */
  predicate SourceFits(existing: string, turns: seq<Turn>, c: Config, n: nat) {
    n <= |turns| && Fits(Opening(existing, c) + TurnTexts(turns[..n]), c.sourceChars, c.sourceBytes)
  }

  lemma TextsOfTake(turns: seq<Turn>, n: nat)
    requires n < |turns|
    ensures TurnTexts(turns[..n + 1]) == TurnTexts(turns[..n]) + TurnText(turns[n])
  {
    Seqs.TakeNext(turns, n);
    Seqs.DropLast(turns[..n], turns[n]);
  }

  /** More turns need more room. */
  lemma FitsOneFewer(existing: string, turns: seq<Turn>, n: nat, c: Config)
    requires n < |turns| && SourceFits(existing, turns, c, n + 1)
    ensures SourceFits(existing, turns, c, n)
  {
    var opening := Opening(existing, c);
    TextsOfTake(turns, n);
    Seqs.AppendAssoc(opening, TurnTexts(turns[..n]), TurnText(turns[n]));
    BytesConcat(opening + TurnTexts(turns[..n]), TurnText(turns[n]));
  }

  /** Counts up from `n` while the next number fits. */
  function LastFit(fits: nat -> bool, n: nat, limit: nat): (r: nat)
    requires n <= limit
    ensures n <= r <= limit
    decreases limit - n
  {
    var m := n + 1;
    if n < limit && fits(m) then LastFit(fits, m, limit) else n
  }

  /** A number above the start is reached exactly when it and every number before it fit. */
  lemma {:induction false} LastFitReaches(fits: nat -> bool, n: nat, limit: nat, target: nat)
    requires n < target <= limit && (fits(target) ==> forall m :: n < m < target ==> fits(m))
    ensures target <= LastFit(fits, n, limit) <==> fits(target)
    decreases limit - n
  {
    var m := n + 1;
    if fits(m) && m < target {
      LastFitReaches(fits, m, limit, target);
    }
  }

  function Fitting(existing: string, turns: seq<Turn>, c: Config): nat -> bool {
    (n: nat) => SourceFits(existing, turns, c, n)
  }

  /** How many leading turns the source holds in full. */
  function Included(existing: string, turns: seq<Turn>, c: Config): (n: nat)
    ensures n <= |turns|
  {
    LastFit(Fitting(existing, turns, c), 0, |turns|)
  }

  lemma {:induction false} FitsFewer(existing: string, turns: seq<Turn>, m: nat, n: nat, c: Config)
    requires m <= n && SourceFits(existing, turns, c, n)
    ensures SourceFits(existing, turns, c, m)
    decreases n
  {
    if m < n {
      var k := n - 1;
      FitsOneFewer(existing, turns, k, c);
      FitsFewer(existing, turns, m, k, c);
    }
  }

  /** Exactly the turns that fit are included. */
  lemma IncludedIsLargest(existing: string, turns: seq<Turn>, n: nat, c: Config)
    requires 0 < n
    ensures n <= Included(existing, turns, c) <==> SourceFits(existing, turns, c, n)
  {
    if n <= |turns| {
      if SourceFits(existing, turns, c, n) {
        forall m | 0 < m < n ensures SourceFits(existing, turns, c, m) {
          FitsFewer(existing, turns, m, n, c);
        }
      }
      LastFitReaches(Fitting(existing, turns, c), 0, |turns|, n);
    }
  }

  /** Only turns wholly inside the bounded source are reported as included. */
  method SourcePrompt(existing: string, turns: seq<Turn>, c: Config) returns (source: string, included: seq<Turn>)
    ensures included == turns[..Included(existing, turns, c)]
    ensures source == Opening(existing, c) + TurnTexts(included)
    ensures Fits(source, c.sourceChars, c.sourceBytes)
  {
    source := Opening(existing, c);
    included := [];
    var i := 0;
    Seqs.AppendEmpty(source);
    while i < |turns|
      invariant i <= |turns|
      invariant included == turns[..i]
      invariant source == Opening(existing, c) + TurnTexts(included)
      invariant Fits(source, c.sourceChars, c.sourceBytes)
      invariant Included(existing, turns, c) == LastFit(Fitting(existing, turns, c), i, |turns|)
    {
      TextsOfTake(turns, i);
      Seqs.TakeNext(turns, i);
      Seqs.AppendAssoc(Opening(existing, c), TurnTexts(turns[..i]), TurnText(turns[i]));
      FittingTextIsKept(source + TurnText(turns[i]), c.sourceChars, c.sourceBytes);
      var candidate := Truncated(source + TurnText(turns[i]), c.sourceChars, c.sourceBytes);
      if candidate != source + TurnText(turns[i]) {
        break;
      }
      source := candidate;
      included := included + [turns[i]];
      i := i + 1;
    }
  }

  // ----- one refresh -----

  /** The turns whose assistant message is not among the recent ones. */
  function NotRecent(turns: seq<Turn>, recent: set<int>): (kept: seq<Turn>)
    ensures |kept| <= |turns|
  {
    if turns == [] then []
    else
      var last := turns[|turns| - 1];
      NotRecent(turns[..|turns| - 1], recent) + if last.assistant.id in recent then [] else [last]
  }

  function Content(summary: Option<Summary>): string {
    if summary.Some? then summary.value.content else ""
  }

  function Coverage(summary: Option<Summary>): int {
    if summary.Some? then summary.value.covered else 0
  }

  /** A refresh looks at this many unsummarized messages. */
  function WindowSize(c: Config): nat {
    (c.batch + 1) * 2
  }

  function NewMessages(messages: seq<Message>, covered: int, c: Config): seq<Message> {
    Window(messages, covered, WindowSize(c))
  }

  function NewTurns(messages: seq<Message>, covered: int, c: Config): seq<Turn> {
    CompleteTurns(NewMessages(messages, covered, c))
  }

  /** The id of the assistant message that ends the last turn. */
  function EndId(turns: seq<Turn>): int
    requires turns != []
  {
    turns[|turns| - 1].assistant.id
  }

  /** The turns put in front of the provider; none when the refresh is skipped. */
  function Chosen(messages: seq<Message>, summary: Option<Summary>, recent: set<int>, c: Config): seq<Turn> {
    var eligible := NotRecent(NewTurns(messages, Coverage(summary), c), recent);
    if |eligible| < c.trigger then []
    else
      var batch := eligible[..Min(c.batch, |eligible|)];
      batch[..Included(Content(summary), batch, c)]
  }

  /** The checks of the summary table: text, a positive id of an assistant message of the
      conversation, and no step back. */
  predicate Storable(messages: seq<Message>, summary: Option<Summary>, content: string, covered: int) {
    && !Blank(content) && covered > 0 && IsAssistant(messages, covered)
    && (summary.Some? ==> summary.value.covered <= covered)
  }

  predicate IsAssistant(messages: seq<Message>, id: int) {
    exists m :: m in messages && m.id == id && m.role == ASSISTANT
  }

  // ----- runs: messages arrive while the worker refreshes -----

  /** The single worker: idle, holding the ids of the recent messages, or waiting for the
      provider with the turns of its prompt. */
  datatype Worker = Idle | Looking(recent: set<int>) | Waiting(turns: seq<Turn>)

  /** `summarized` records the turns of every refresh that stored a summary. */
  datatype State = State(messages: seq<Message>, summary: Option<Summary>, worker: Worker, summarized: seq<Turn>)

  /** A reply carries the parsed summary, or nothing when the provider or its JSON failed. */
  datatype Event =
    | Append(gap: nat, created: int, role: Role, content: string)
    | ReadRecent
    | ReadNew
    | Reply(text: Option<string>)

  function NextId(messages: seq<Message>, gap: nat): int {
    (if messages == [] then 0 else messages[|messages| - 1].id) + 1 + gap
  }

  function Step(s: State, e: Event, c: Config): State {
    match e
    case Append(gap, created, role, content) =>
      s.(messages := s.messages + [Message(NextId(s.messages, gap), role, content, created)])
    case ReadRecent =>
      if s.worker.Idle? then s.(worker := Looking(RecentIds(s.messages, c))) else s
    case ReadNew =>
      if s.worker.Looking? then
        var turns := Chosen(s.messages, s.summary, s.worker.recent, c);
        s.(worker := if turns == [] then Idle else Waiting(turns))
      else s
    case Reply(text) =>
      if s.worker.Waiting? && s.worker.turns != [] then Replied(s, s.worker.turns, text, c) else s
  }

  /** The summary text that is stored: the parsed reply cut to its budget. */
  function StoredText(text: string, c: Config): string {
    Truncated(text, c.summaryChars, c.summaryChars * 3)
  }

  /** The state after the reply to a prompt holding `turns`. */
  function Replied(s: State, turns: seq<Turn>, text: Option<string>, c: Config): State
    requires turns != []
  {
    if text.Some? && Storable(s.messages, s.summary, StoredText(text.value, c), EndId(turns)) then
      State(s.messages, Some(Summary(StoredText(text.value, c), EndId(turns))), Idle, s.summarized + turns)
    else s.(worker := Idle)
  }

  function Run(s: State, events: seq<Event>, c: Config): State {
    if events == [] then s else Step(Run(s, events[..|events| - 1], c), events[|events| - 1], c)
  }

  const FRESH := State([], None, Idle, [])

  /** The rows of one conversation and the operations on them, each made by some user. */
  class Conversation {
    const owner: int
    var messages: seq<Message>
    var summary: Option<Summary>
    ghost var summarized: seq<Turn>

    ghost function View(): State
      reads this
    {
      State(messages, summary, Idle, summarized)
    }

    constructor (user: int)
      ensures View() == FRESH && owner == user
    {
      owner := user;
      messages, summary, summarized := [], None, [];
    }

    /** Only the owner's messages are appended. */
    method AppendMessage(user: int, gap: nat, created: int, role: Role, content: string, c: Config)
      returns (m: Option<Message>)
      modifies this
      ensures m.Some? <==> user == owner
      ensures m.Some? ==> View() == Step(old(View()), Append(gap, created, role, content), c)
                          && messages == old(messages) + [m.value]
      ensures m.None? ==> View() == old(View())
    {
      if user != owner {
        return None;
      }
      var last := if |messages| == 0 then 0 else messages[|messages| - 1].id;
      var added := Message(last + 1 + gap, role, content, created);
      messages := messages + [added];
      return Some(added);
    }

    method Find(id: int) returns (m: Option<Message>)
      ensures m.Some? <==> exists x :: x in messages && x.id == id
      ensures m.Some? ==> m.value in messages && m.value.id == id
    {
      m := None;
      for i := 0 to |messages|
        invariant m.None? ==> forall x :: x in messages[..i] ==> x.id != id
        invariant m.Some? ==> m.value in messages && m.value.id == id
      {
        if messages[i].id == id {
          m := Some(messages[i]);
        }
      }
      Seqs.TakeAll(messages);
    }

    /** ConversationSummaryRepository.upsert: refused attempts leave the row alone. */
    method Upsert(user: int, content: string, covered: int) returns (stored: bool)
      requires Chronological(messages)
      modifies `summary
      ensures stored <==> user == owner && Storable(messages, old(summary), content, covered)
      ensures summary == if stored then Some(Summary(content, covered)) else old(summary)
    {
      var blank := Strip(content) == "";
      var before, after := StripRemovesOnlySpace(content);
      if blank || covered <= 0 {
        return false;
      }
      if user != owner {
        return false;
      }
      var m := Find(covered);
      if m.None? || m.value.role != ASSISTANT {
        return false;
      }
      if summary.Some? && covered < summary.value.covered {
        return false;
      }
      summary := Some(Summary(content, covered));
      return true;
    }

    /** The two reads and the source prompt; every query is limited to the owner's rows. */
    method Choose(user: int, c: Config) returns (included: seq<Turn>)
      ensures user == owner ==> included == Chosen(messages, summary, RecentIds(messages, c), c)
      ensures user != owner ==> included == []
    {
      var rows := if user == owner then messages else [];
      var existing := if user == owner then summary else None;
      var recent := RecentIds(rows, c);
      var turns := PairUp(NewMessages(rows, Coverage(existing), c));
      var eligible := NotRecent(turns, recent);
      if |eligible| < c.trigger {
        return [];
      }
      var batch := eligible[..Min(c.batch, |eligible|)];
      var source;
      source, included := SourcePrompt(Content(existing), batch, c);
    }

    /** ConversationSummaryService._refresh with nothing arriving meanwhile; `reply` is the parsed
        answer of the provider. */
    method Refresh(user: int, c: Config, reply: Option<string>) returns (updated: bool)
      requires Chronological(messages)
      modifies this
      ensures user == owner
              ==> View() == Step(Step(Step(old(View()), ReadRecent, c), ReadNew, c), Reply(reply), c)
      ensures !updated || user != owner ==> View() == old(View())
    {
      var included := Choose(user, c);
      ReadsThenReply(View(), included, reply, c);
      if included == [] || reply.None? {
        return false;
      }
      updated := Upsert(user, StoredText(reply.value, c), EndId(included));
      if updated {
        summarized := summarized + included;
      }
    }
  }

  lemma ReadsThenReply(s: State, included: seq<Turn>, reply: Option<string>, c: Config)
    requires s.worker.Idle?
    ensures var recent := RecentIds(s.messages, c);
            included == Chosen(s.messages, s.summary, recent, c)
            ==> Step(Step(Step(s, ReadRecent, c), ReadNew, c), Reply(reply), c)
                == if included == [] then s else Replied(s, included, reply, c)
  {
  }
}
