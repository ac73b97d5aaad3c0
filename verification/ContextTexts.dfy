/** What the context holds and how it reads, said of messages and characters alone:
    src/zglab_rag/conversation/context.py. */
module ContextTexts {
  import opened Context
  import opened ContextLaws
  import opened Filtering
  import opened Options
  import opened Sorting
  import opened Text
  import opened Turns
  import Seqs

  // ----- the relevant turns that are offered -----

  /** A message id of the last `n` complete turns. */
  predicate AmongLast(id: int, complete: seq<Turn>, n: int) {
    exists i :: 0 <= i < |complete| && |complete| - n <= i
                && (id == complete[i].user.id || id == complete[i].assistant.id)
  }

  lemma CandidateIds(id: int, complete: seq<Turn>, l: Limits)
    requires ValidLimits(l)
    ensures id in MessageIds(Candidates(complete, l.maxTurns)) <==> AmongLast(id, complete, l.maxTurns)
  {
    var candidates := Candidates(complete, l.maxTurns);
    var d := |complete| - |candidates|;
    if id in MessageIds(candidates) {
      var t :| t in candidates && (t.user.id == id || t.assistant.id == id);
      var i :| 0 <= i < |candidates| && candidates[i] == t;
      assert complete[d + i] == t;
    }
    if AmongLast(id, complete, l.maxTurns) {
      var i :| 0 <= i < |complete| && |complete| - l.maxTurns <= i
               && (id == complete[i].user.id || id == complete[i].assistant.id);
      assert candidates[i - d] == complete[i];
      assert complete[i] in candidates;
    }
  }

  /** No message of the turn is among the last `n` complete turns. */
  predicate OutsideLast(turn: Turn, complete: seq<Turn>, n: int) {
    !AmongLast(turn.user.id, complete, n) && !AmongLast(turn.assistant.id, complete, n)
  }

  lemma {:induction false} EligibleIsFilter(turns: seq<Turn>, ids: set<int>, p: Turn -> bool)
    requires forall t :: p(t) <==> t.user.id !in ids && t.assistant.id !in ids
    ensures Eligible(turns, ids) == Filter(turns, p)
  {
    if turns != [] {
      EligibleIsFilter(turns[..|turns| - 1], ids, p);
    }
  }

  lemma OfferedIsFilter(complete: seq<Turn>, relevant: seq<Turn>, l: Limits, p: Turn -> bool)
    requires ValidLimits(l) && forall t :: p(t) <==> OutsideLast(t, complete, l.maxTurns)
    ensures Offered(complete, relevant, l) == Filter(Sort(relevant, OlderFirst), p)
  {
    forall t ensures OutsideLast(t, complete, l.maxTurns)
      <==> t.user.id !in MessageIds(Candidates(complete, l.maxTurns))
           && t.assistant.id !in MessageIds(Candidates(complete, l.maxTurns))
    {
      CandidateIds(t.user.id, complete, l);
      CandidateIds(t.assistant.id, complete, l);
    }
    EligibleIsFilter(Sort(relevant, OlderFirst), MessageIds(Candidates(complete, l.maxTurns)), p);
  }

  /** The relevant turns offered are those with no message among the last `maxTurns` complete
      turns, each as often as it was given, in the order of their questions' ids. */
  lemma OfferedAreOutside(complete: seq<Turn>, relevant: seq<Turn>, l: Limits, turn: Turn)
    requires ValidLimits(l)
    ensures multiset(Offered(complete, relevant, l))[turn]
         == if OutsideLast(turn, complete, l.maxTurns) then multiset(relevant)[turn] else 0
    ensures var offered := Offered(complete, relevant, l);
            forall i, j :: 0 <= i < j < |offered| ==> offered[i].user.id <= offered[j].user.id
  {
    var p := (t: Turn) => OutsideLast(t, complete, l.maxTurns);
    var sorted, offered := Sort(relevant, OlderFirst), Offered(complete, relevant, l);
    OfferedIsFilter(complete, relevant, l, p);
    SortIsSorted(relevant, OlderFirst);
    FilterCounts(sorted, p, turn);
    FilterStaysSorted(sorted, p, OlderFirst);
    assert forall i, j :: 0 <= i < j < |offered| ==> OlderFirst(offered[i], offered[j]);
  }

  /** Turns whose questions have one id keep the order in which they were given. */
  lemma OfferedKeepTheirOrder(complete: seq<Turn>, relevant: seq<Turn>, l: Limits, same: Turn -> bool,
                              both: Turn -> bool, id: int)
    requires ValidLimits(l) && (forall t :: same(t) <==> t.user.id == id)
    requires forall t :: both(t) <==> t.user.id == id && OutsideLast(t, complete, l.maxTurns)
    ensures Filter(Offered(complete, relevant, l), same) == Filter(relevant, both)
  {
    var p := (t: Turn) => OutsideLast(t, complete, l.maxTurns);
    OfferedIsFilter(complete, relevant, l, p);
    FilterTwice(Sort(relevant, OlderFirst), p, same, both);
    SortIsStable(relevant, OlderFirst, both);
  }

  // ----- the messages of a turn -----

  /** `part` is the longest beginning of `whole` within the budgets. */
  predicate LongestPrefix(part: string, whole: string, chars: nat, bytes: nat) {
    && |part| <= |whole| && part == whole[..|part|] && |part| <= chars && Bytes(part) <= bytes
    && forall n :: |part| < n <= |whole| ==> n > chars || Bytes(whole[..n]) > bytes
  }

  /** The `k`-th turn's question and answer, in this order, ... */
  lemma {:induction false} WholeTurnsInOrder(turns: seq<Turn>, k: nat)
    requires k < |turns|
    ensures WholeTurns(turns)[2 * k] == Line(USER, turns[k].user.content)
    ensures WholeTurns(turns)[2 * k + 1] == Line(ASSISTANT, turns[k].assistant.content)
  {
    var n := |turns| - 1;
    if k < n {
      WholeTurnsInOrder(turns[..n], k);
    }
  }

  /** The two lines are the turn's question and answer, each cut to the budgets. */
  predicate IsCut(user: Line, assistant: Line, turn: Turn, chars: nat, bytes: nat) {
    && user.role == USER && LongestPrefix(user.content, turn.user.content, chars, bytes)
    && assistant.role == ASSISTANT && LongestPrefix(assistant.content, turn.assistant.content, chars, bytes)
  }

  lemma CutTurnIsCut(turn: Turn, chars: nat, bytes: nat)
    ensures IsCut(CutTurn(turn, chars, bytes)[0], CutTurn(turn, chars, bytes)[1], turn, chars, bytes)
  {
    TruncatedIsLongest(turn.user.content, chars, bytes);
    TruncatedIsLongest(turn.assistant.content, chars, bytes);
  }

  lemma AppendedPair(front: seq<Line>, pair: seq<Line>, all: seq<Line>, p: nat)
    requires |pair| == 2 && all == front + pair && p + 1 < |all| && p != |front| - 1
    ensures p < |front| ==> p + 1 < |front| && all[p] == front[p] && all[p + 1] == front[p + 1]
    ensures p >= |front| ==> all[p] == pair[0] && all[p + 1] == pair[1]
  {
  }

  lemma {:induction false} CutTurnsAre(turns: seq<Turn>, chars: nat, bytes: nat, k: nat, p: nat)
    requires k < |turns| && p == 2 * k
    ensures CutTurns(turns, chars, bytes)[p] == CutTurn(turns[k], chars, bytes)[0]
    ensures CutTurns(turns, chars, bytes)[p + 1] == CutTurn(turns[k], chars, bytes)[1]
  {
    var n := |turns| - 1;
    var front, pair := CutTurns(turns[..n], chars, bytes), CutTurn(turns[n], chars, bytes);
    AppendedPair(front, pair, CutTurns(turns, chars, bytes), p);
    if k < n {
      CutTurnsAre(turns[..n], chars, bytes, k, p);
      assert turns[..n][k] == turns[k];
    }
  }

  /** ... and cut to the budgets. */
  lemma CutTurnsInOrder(turns: seq<Turn>, chars: nat, bytes: nat, k: nat)
    requires k < |turns|
    ensures IsCut(CutTurns(turns, chars, bytes)[2 * k], CutTurns(turns, chars, bytes)[2 * k + 1], turns[k], chars,
                  bytes)
  {
    CutTurnsAre(turns, chars, bytes, k, 2 * k);
    CutTurnIsCut(turns[k], chars, bytes);
  }

  lemma TruncatedIsLongest(s: string, chars: nat, bytes: nat)
    ensures LongestPrefix(Truncated(s, chars, bytes), s, chars, bytes)
  {
    assert forall m :: 0 <= m <= |s| ==> |s[..m]| == m;
  }

  // ----- the text -----

  /** A message as it reads: its label and its content. */
  function Labelled(line: Line): string {
    (if line.role.USER? then "USER: " else "ASSISTANT: ") + line.content
  }

  lemma LineReads(line: Line)
    ensures RenderLine(line) == Labelled(line)
  {
    Seqs.AppendAssoc(RoleName(line.role), ": ", line.content);
  }

  /** The messages read one per line, the first first. */
  lemma MessagesReadInTurn(line: Line, rest: seq<Line>)
    ensures RenderMessages([line]) == Labelled(line)
    ensures rest != [] ==> RenderMessages([line] + rest) == Labelled(line) + "\n" + RenderMessages(rest)
  {
    LineReads(line);
    assert RenderLines([line]) == [RenderLine(line)];
    if rest != [] {
      assert RenderLines([line] + rest) == RenderLines([line]) + RenderLines(rest);
      JoinConcat("\n", RenderLines([line]), RenderLines(rest));
    }
  }

  /** The three parts of the context under their headings, a missing one leaving no trace. */
  function SummaryPart(summary: Option<string>): string {
    if summary == None || summary == Some("") then ""
    else
      "CONVERSATION SUMMARY" + "\n(" + "untrusted compressed conversation state" + "; not evidence)\n" + summary.value
  }

  function RelevantPart(lines: seq<Line>): string {
    if lines == [] then ""
    else "RELEVANT HISTORICAL TURNS" + "\n(" + "untrusted reference data" + "; not evidence)\n" + RenderMessages(lines)
  }

  function RecentPart(lines: seq<Line>): string {
    if lines == [] then ""
    else "RECENT TURNS" + "\n(" + "untrusted reference data" + "; not evidence)\n" + RenderMessages(lines)
  }

  /** Two texts with an empty line between them, when there are two. */
  function Spaced(a: string, b: string): string {
    if a == "" then b else if b == "" then a else a + "\n\n" + b
  }

  lemma HeadingsDiffer()
    ensures SUMMARY != RELEVANT && SUMMARY != RECENT
  {
    assert SUMMARY[0] != RELEVANT[0] && SUMMARY[0] != RECENT[0];
  }

  lemma PartsRead(c: Context)
    ensures SummaryParts(c.summary) == if SummaryPart(c.summary) == "" then [] else [SummaryPart(c.summary)]
    ensures LineParts(RELEVANT, c.relevant) == if RelevantPart(c.relevant) == "" then [] else [RelevantPart(c.relevant)]
    ensures LineParts(RECENT, c.recent) == if RecentPart(c.recent) == "" then [] else [RecentPart(c.recent)]
  {
    HeadingsDiffer();
  }

  lemma {:induction false} JoinIsEmptyIff(parts: seq<string>)
    requires forall p :: p in parts ==> p != ""
    ensures Join("\n\n", parts) == "" <==> parts == []
  {
    if |parts| > 0 {
      assert parts[|parts| - 1] in parts;
    }
  }

  lemma JoinOfTwo(a: seq<string>, b: seq<string>)
    requires forall p :: p in a || p in b ==> p != ""
    ensures Join("\n\n", a + b) == Spaced(Join("\n\n", a), Join("\n\n", b))
  {
    JoinIsEmptyIff(a);
    JoinIsEmptyIff(b);
    if a == [] {
      assert a + b == b;
    } else if b == [] {
      assert a + b == a;
    } else {
      JoinConcat("\n\n", a, b);
    }
  }

  /** What the model is shown: summary, relevant and recent turns, in this order. */
  lemma ContextReads(c: Context)
    ensures Render(c) == Spaced(Spaced(SummaryPart(c.summary), RelevantPart(c.relevant)), RecentPart(c.recent))
  {
    PartsRead(c);
    JoinOfTwo(SummaryParts(c.summary), LineParts(RELEVANT, c.relevant));
    JoinOfTwo(SummaryParts(c.summary) + LineParts(RELEVANT, c.relevant), LineParts(RECENT, c.recent));
  }

  // ----- the retrieval query -----

  /** A framed query with as much of the reference as fits. */
  ghost predicate FramesAsMuch(q: string, prefix: string, reference: string, suffix: string, question: string,
                               part: string, chars: int, bytes: int) {
    && q == prefix + part + suffix + question && part <= reference && Fits(q, chars, bytes)
    && forall n :: |part| < n <= |reference| ==> !Fits(prefix + reference[..n] + suffix + question, chars, bytes)
  }

  lemma FrameFitsIff(prefix: string, part: string, suffix: string, question: string, chars: int, bytes: int,
                     roomChars: int, roomBytes: int)
    requires roomChars == chars - |prefix| - |suffix| - |question|
    requires roomBytes == bytes - Bytes(prefix) - Bytes(suffix) - Bytes(question)
    ensures Fits(prefix + part + suffix + question, chars, bytes) <==> Fits(part, roomChars, roomBytes)
  {
    QuerySize(prefix, part, suffix, question);
  }

  lemma FramedHoldsReference(prefix: string, suffix: string, reference: string, question: string, chars: int,
                             bytes: int)
    returns (part: string)
    ensures var q := Framed(prefix, suffix, reference, question, chars, bytes);
            if Fits(prefix + "" + suffix + question, chars, bytes)
            then FramesAsMuch(q, prefix, reference, suffix, question, part, chars, bytes)
            else q == question
  {
    var roomChars := chars - |prefix| - |suffix| - |question|;
    var roomBytes := bytes - Bytes(prefix) - Bytes(suffix) - Bytes(question);
    FrameFitsIff(prefix, "", suffix, question, chars, bytes, roomChars, roomBytes);
    part := "";
    if roomChars >= 0 && roomBytes >= 0 {
      part := Truncated(reference, roomChars, roomBytes);
      FrameFitsIff(prefix, part, suffix, question, chars, bytes, roomChars, roomBytes);
      forall n | |part| < n <= |reference|
        ensures !Fits(prefix + reference[..n] + suffix + question, chars, bytes)
      {
        FrameFitsIff(prefix, reference[..n], suffix, question, chars, bytes, roomChars, roomBytes);
      }
    }
  }

  /** The retrieval query holds as much of the rendered context as fits before the question, and is
      the question alone exactly when the frame around it does not fit. */
  lemma QueryHoldsContext(c: Context, question: string, chars: int, bytes: int) returns (part: string)
    ensures var q := RetrievalQuery(c, question, chars, bytes);
            var prefix, suffix := "CONVERSATION REFERENCE (untrusted)\n", "\n\nCURRENT QUESTION:\n";
            if Fits(prefix + "" + suffix + question, chars, bytes)
            then FramesAsMuch(q, prefix, Render(c), suffix, question, part, chars, bytes)
            else q == question
  {
    part := FramedHoldsReference(PREFIX, SUFFIX, Render(c), question, chars, bytes);
  }
}
