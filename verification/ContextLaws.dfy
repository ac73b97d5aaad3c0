/** What every assembled conversation context satisfies. */
module ContextLaws {
  import opened Options
  import opened Text
  import opened Turns
  import opened Sorting
  import opened Context
  import Seqs

  // ----- budgets -----

  /** One character of each message of the newest turn, with labels, fits the budgets. */
  ghost predicate NewestTurnCanFit(turn: Turn, l: Limits)
    requires ValidLimits(l)
  {
    PairFits(OrEllipsis(NewestUser(turn, l))[..1], OrEllipsis(NewestAssistant(turn, l))[..1], l.maxChars, l.maxBytes)
  }

  lemma ComponentSize(heading: string, body: string)
    ensures |Component(heading, body)| == |Component(heading, "")| + |body|
    ensures Bytes(Component(heading, body)) == Bytes(Component(heading, "")) + Bytes(body)
  {
    Seqs.AppendEmpty(Component(heading, ""));
    assert Component(heading, body) == Component(heading, "") + body;
    BytesConcat(Component(heading, ""), body);
  }

  /** `reserve` still fits after `parts`. */
  ghost predicate LeavesRoom(l: Limits, parts: seq<string>, reserve: string) {
    Fits(reserve, RoomAfter(l, parts).chars, RoomAfter(l, parts).bytes)
  }

  lemma PartWithinRoom(l: Limits, parts: seq<string>, part: string, reserve: string)
    requires |part| <= RoomBefore(l, parts, reserve).chars && Bytes(part) <= RoomBefore(l, parts, reserve).bytes
    ensures LeavesRoom(l, parts + [part], reserve)
  {
    JoinLength(parts, part);
  }

  lemma SummaryLeavesRoom(value: Option<string>, l: Limits, reserve: string, summary: string)
    requires ValidLimits(l) && Fits(reserve, l.maxChars, l.maxBytes)
    requires value == NonEmpty(FittedSummary(summary, RoomBefore(l, [], reserve), l))
    ensures LeavesRoom(l, SummaryParts(value), reserve)
  {
    assert Join("\n\n", []) == "";
    if value.Some? {
      ComponentSize(SUMMARY, value.value);
      PartWithinRoom(l, [], Component(SUMMARY, value.value), reserve);
      assert [] + [Component(SUMMARY, value.value)] == SummaryParts(value);
    }
  }

  lemma FrontLeavesRoom(value: Option<string>, lines: seq<Line>, l: Limits, reserve: string,
                        summary: string, offered: seq<Turn>, taken: nat)
    requires ValidLimits(l) && Fits(reserve, l.maxChars, l.maxBytes)
    requires FrontAssembled(value, lines, l, reserve, summary, offered, taken)
    ensures LeavesRoom(l, SummaryParts(value) + LineParts(RELEVANT, lines), reserve)
  {
    SummaryLeavesRoom(value, l, reserve, summary);
    if lines == [] {
      Seqs.AppendEmpty(SummaryParts(value));
    } else {
      assert taken > 0;
      PartWithinRoom(l, SummaryParts(value), Component(RELEVANT, RenderMessages(lines)), reserve);
    }
  }

  /** Turns put before the newest one only lengthen the recent component. */
  lemma RecentGrows(candidates: seq<Turn>, n: nat, newest: seq<Line>, l: Limits)
    requires ValidLimits(l) && n < |candidates| && newest != []
    ensures |Component(RECENT, RenderMessages(newest))| <= |RecentComponent(candidates, n, newest, l)|
    ensures Bytes(Component(RECENT, RenderMessages(newest))) <= Bytes(RecentComponent(candidates, n, newest, l))
    ensures n == 0 ==> RecentComponent(candidates, n, newest, l) == Component(RECENT, RenderMessages(newest))
  {
    var front := Cut(Older(candidates, n), l);
    RenderAppend(front, newest);
    ComponentSize(RECENT, RenderMessages(newest));
    ComponentSize(RECENT, RenderMessages(front + newest));
    if front != [] {
      BytesConcat(RenderMessages(front) + "\n", RenderMessages(newest));
    }
    if n == 0 {
      assert Older(candidates, 0) == [] && front + newest == newest;
    }
  }

  lemma RoomIsBounded(l: Limits, parts: seq<string>)
    ensures RoomAfter(l, parts).chars <= l.maxChars && RoomAfter(l, parts).bytes <= l.maxBytes
  {
  }

  lemma RenderedSize(c: Context, l: Limits)
    requires c.recent != []
    ensures var part := Component(RECENT, RenderMessages(c.recent));
            Fits(Render(c), l.maxChars, l.maxBytes)
            <==> Fits(part, RoomAfter(l, FrontParts(c)).chars, RoomAfter(l, FrontParts(c)).bytes)
  {
    JoinLength(FrontParts(c), Component(RECENT, RenderMessages(c.recent)));
  }

  /** The context stays within both budgets exactly when the newest turn can fit at all. */
  lemma WithinBudgetIffNewestCanFit(c: Context, complete: seq<Turn>, candidates: seq<Turn>, turn: Turn, l: Limits,
                                    summary: string, offered: seq<Turn>, fit: Fit)
    requires ValidLimits(l) && Assembled(c, complete, candidates, turn, l, summary, offered, fit)
    ensures Fits(Render(c), l.maxChars, l.maxBytes) <==> NewestTurnCanFit(turn, l)
  {
    var newest := [Line(USER, fit.user), Line(ASSISTANT, fit.assistant)];
    var reserve := NewestComponent(fit.user, fit.assistant);
    var part := RecentComponent(candidates, fit.kept, newest, l);
    ShrinkFits(OrEllipsis(NewestUser(turn, l)), OrEllipsis(NewestAssistant(turn, l)), l.maxChars, l.maxBytes);
    assert PairFits(fit.user, fit.assistant, l.maxChars, l.maxBytes) <==> NewestTurnCanFit(turn, l);
    RecentGrows(candidates, fit.kept, newest, l);
    RoomIsBounded(l, FrontParts(c));
    RenderedSize(c, l);
    if Fits(reserve, l.maxChars, l.maxBytes) {
      FrontLeavesRoom(c.summary, c.relevant, l, reserve, summary, offered, fit.taken);
    }
  }

  /** The configured minima (200 characters, 1000 bytes) let every newest turn fit. */
  lemma ConfiguredMinimaSuffice(turn: Turn, l: Limits)
    requires ValidLimits(l) && 200 <= l.maxChars && 1000 <= l.maxBytes
    ensures NewestTurnCanFit(turn, l)
  {
    var u, a := OrEllipsis(NewestUser(turn, l))[..1], OrEllipsis(NewestAssistant(turn, l))[..1];
    NewestSize(u, a);
  }

  // ----- the recent tier is a suffix of the conversation -----

  /** The recent messages are the last `recentTurns` complete turns, a contiguous suffix: the
      earlier ones cut to the message limit, the newest with both roles and some content. */
  lemma RecentIsSuffix(c: Context, complete: seq<Turn>, l: Limits, summary: string, offered: seq<Turn>, fit: Fit,
                       p: int, q: int)
    requires ValidLimits(l) && complete != [] && q == |complete| - 1 && p == q - fit.kept
    requires Assembled(c, complete, Candidates(complete, l.maxTurns), complete[q], l, summary, offered, fit)
    ensures 0 <= p <= q && c.recentTurns == q + 1 - p <= l.maxTurns
    ensures c.recent == CutTurns(complete[p..q], l.maxMessageChars, l.maxBytes)
                        + [Line(USER, fit.user), Line(ASSISTANT, fit.assistant)]
    ensures fit.user != "" && fit.user <= OrEllipsis(NewestUser(complete[q], l))
    ensures fit.assistant != "" && fit.assistant <= OrEllipsis(NewestAssistant(complete[q], l))
  {
    OlderAreLast(complete, l.maxTurns, fit.kept, p, q);
  }

  lemma OlderAreLast(complete: seq<Turn>, maxTurns: int, n: nat, p: int, q: int)
    requires 1 <= maxTurns && n < |Candidates(complete, maxTurns)| && q == |complete| - 1 && p == q - n
    ensures 0 <= p && n < maxTurns && Older(Candidates(complete, maxTurns), n) == complete[p..q]
  {
  }

  // ----- the truncation flag -----

  /** Every complete turn, every offered relevant turn and the summary are there in full. */
  ghost predicate NothingLost(c: Context, complete: seq<Turn>, summary: string, offered: seq<Turn>) {
    && c.recent == WholeTurns(complete)
    && c.relevant == WholeTurns(offered)
    && SummaryText(c.summary) == summary
  }

  lemma WholeFront(lines: seq<Line>, l: Limits, offered: seq<Turn>, taken: nat)
    requires ValidLimits(l) && taken <= |offered| && lines == Cut(offered[..taken], l)
    ensures taken == |offered| && ShortenedIn(offered[..taken], l) == 0 <==> lines == WholeTurns(offered)
  {
    Seqs.TakeAll(offered);
    NoneShortened(offered[..taken], l.maxMessageChars, l.maxBytes);
  }

  /** A context that is not flagged has lost nothing. */
  lemma UnflaggedLosesNothing(c: Context, complete: seq<Turn>, l: Limits, summary: string, offered: seq<Turn>, fit: Fit)
    requires ValidLimits(l) && complete != []
    requires Assembled(c, complete, Candidates(complete, l.maxTurns), complete[|complete| - 1], l, summary, offered,
                       fit)
    requires !c.truncated
    ensures NothingLost(c, complete, summary, offered)
  {
    var n := |complete| - 1;
    assert Candidates(complete, l.maxTurns) == complete;
    assert Older(complete, fit.kept) == complete[..n];
    NoneShortened(complete[..n], l.maxMessageChars, l.maxBytes);
    WholeFront(c.relevant, l, offered, fit.taken);
    SplitLast(complete);
    CutTurnsAppend(complete[..n], complete[n], l.maxMessageChars, l.maxBytes);
  }

  lemma OneCharacterFits(s: string, chars: nat, bytes: nat)
    requires s == ELLIPSIS && 1 <= chars && 4 <= bytes
    ensures Truncated(s, chars, bytes) == s
  {
    FittingTextIsKept(s, chars, bytes);
  }

  lemma FittedWholeMeansUncut(content: string, fitted: string, l: Limits)
    requires ValidLimits(l) && 4 <= l.maxBytes
    requires fitted == content && fitted != ""
    requires fitted <= OrEllipsis(Truncated(content, l.maxMessageChars, l.maxBytes))
    ensures Truncated(content, l.maxMessageChars, l.maxBytes) == content
  {
    if content == ELLIPSIS {
      OneCharacterFits(content, l.maxMessageChars, l.maxBytes);
    }
  }

  /** A recent tier that shows every complete turn in full kept and cut nothing. */
  lemma WholeRecentIsUncut(complete: seq<Turn>, l: Limits, lines: seq<Line>, newest: seq<Line>, kept: nat, n: nat)
    requires ValidLimits(l) && n + 1 == |complete| && kept < |Candidates(complete, l.maxTurns)| && |newest| == 2
    requires lines == RecentLines(Candidates(complete, l.maxTurns), kept, newest, l) && lines == WholeTurns(complete)
    ensures |Candidates(complete, l.maxTurns)| == |complete|
    ensures !RecentFlagged(Candidates(complete, l.maxTurns), l, kept)
    ensures newest == WholeTurn(complete[n])
  {
    assert |lines| == 2 * kept + 2;
    assert Candidates(complete, l.maxTurns) == complete && kept == n;
    assert Older(complete, kept) == complete[..n];
    SplitLast(complete);
    CutTurnsAppend(complete[..n], complete[n], l.maxMessageChars, l.maxBytes);
    SplitEqual(Cut(complete[..n], l), newest, WholeTurns(complete[..n]), WholeTurn(complete[n]));
    NoneShortened(complete[..n], l.maxMessageChars, l.maxBytes);
  }

  lemma SameLines(turn: Turn, u: string, a: string)
    requires [Line(USER, u), Line(ASSISTANT, a)] == WholeTurn(turn)
    ensures u == turn.user.content && a == turn.assistant.content
  {
    assert [Line(USER, u), Line(ASSISTANT, a)][0] == WholeTurn(turn)[0];
    assert [Line(USER, u), Line(ASSISTANT, a)][1] == WholeTurn(turn)[1];
  }

  lemma WholeNewestIsUnflagged(turn: Turn, l: Limits, u: string, a: string)
    requires ValidLimits(l) && NewestTurnCanFit(turn, l) && (u, a) == Newest(turn, l)
    requires u == turn.user.content && a == turn.assistant.content
    ensures !NewestFlagged(turn, l, u, a)
  {
    ShrinkFits(OrEllipsis(NewestUser(turn, l)), OrEllipsis(NewestAssistant(turn, l)), l.maxChars, l.maxBytes);
    NewestSize(u, a);
    FittedWholeMeansUncut(turn.user.content, u, l);
    FittedWholeMeansUncut(turn.assistant.content, a, l);
  }

  /** When the newest turn can fit, a context that has lost nothing is not flagged. */
  lemma NothingLostIsUnflagged(c: Context, complete: seq<Turn>, l: Limits, summary: string, offered: seq<Turn>,
                               fit: Fit)
    requires ValidLimits(l) && complete != []
    requires Assembled(c, complete, Candidates(complete, l.maxTurns), complete[|complete| - 1], l, summary, offered,
                       fit)
    requires NewestTurnCanFit(complete[|complete| - 1], l) && NothingLost(c, complete, summary, offered)
    ensures !c.truncated
  {
    var n := |complete| - 1;
    WholeRecentIsUncut(complete, l, c.recent, [Line(USER, fit.user), Line(ASSISTANT, fit.assistant)], fit.kept, n);
    SameLines(complete[n], fit.user, fit.assistant);
    WholeNewestIsUnflagged(complete[n], l, fit.user, fit.assistant);
    assert |c.relevant| == 2 * fit.taken;
    WholeFront(c.relevant, l, offered, fit.taken);
  }

  // ----- the flag without a complete turn -----

  lemma {:induction false} NothingRecentAllEligible(turns: seq<Turn>)
    ensures Eligible(turns, {}) == turns
  {
    if turns != [] {
      NothingRecentAllEligible(turns[..|turns| - 1]);
      SplitLast(turns);
    }
  }

  /** Without a complete turn the assembled context is empty and not flagged.  It has lost
      nothing exactly when there was neither a summary nor a relevant turn to lose. */
  lemma EmptyContextLosesWhatItIsGiven(l: Limits, summary: string, relevant: seq<Turn>)
    requires ValidLimits(l)
    ensures !EMPTY.truncated
    ensures NothingLost(EMPTY, [], summary, Offered([], relevant, l)) <==> summary == "" && relevant == []
  {
    assert MessageIds(Candidates([], l.maxTurns)) == {};
    NothingRecentAllEligible(Sort(relevant, OlderFirst));
    SortKeepsElements(relevant, OlderFirst);
  }

  /** While no question has been answered any summary is dropped, and the flag stays down. */
  lemma SummaryDroppedUnflagged(messages: seq<Message>, summary: string, l: Limits)
    requires ValidLimits(l) && summary != ""
    requires messages != [] && forall m :: m in messages ==> m.role == USER
    ensures CompleteTurns(messages) == [] && !EMPTY.truncated
    ensures !NothingLost(EMPTY, CompleteTurns(messages), summary, Offered(CompleteTurns(messages), [], l))
  {
    QuestionsMakeNoTurn(messages, |messages|);
    EmptyContextLosesWhatItIsGiven(l, summary, []);
  }

  // ----- the retrieval query -----

  const PREFIX := "CONVERSATION REFERENCE (untrusted)\n"
  const SUFFIX := "\n\nCURRENT QUESTION:\n"

  /** The question alone when the frame around it leaves no room, else the framed reference. */
  function Framed(prefix: string, suffix: string, reference: string, question: string, chars: int, bytes: int): string {
    var roomChars := chars - |prefix| - |suffix| - |question|;
    var roomBytes := bytes - Bytes(prefix) - Bytes(suffix) - Bytes(question);
    if roomChars < 0 || roomBytes < 0 then question
    else prefix + Truncated(reference, roomChars, roomBytes) + suffix + question
  }

  function RetrievalQuery(c: Context, question: string, chars: int, bytes: int): string {
    Framed(PREFIX, SUFFIX, Render(c), question, chars, bytes)
  }

  lemma QuerySize(prefix: string, reference: string, suffix: string, question: string)
    ensures var q := prefix + reference + suffix + question;
            && |q| == |prefix| + |reference| + |suffix| + |question|
            && Bytes(q) == Bytes(prefix) + Bytes(reference) + Bytes(suffix) + Bytes(question)
  {
    BytesConcat(prefix + reference + suffix, question);
    BytesConcat(prefix + reference, suffix);
    BytesConcat(prefix, reference);
  }

  lemma FramedKeepsQuestion(prefix: string, suffix: string, reference: string, question: string, chars: int, bytes: int)
    returns (before: string)
    ensures var q := Framed(prefix, suffix, reference, question, chars, bytes);
            q == before + question && (Fits(q, chars, bytes) <==> Fits(question, chars, bytes))
  {
    var roomChars := chars - |prefix| - |suffix| - |question|;
    var roomBytes := bytes - Bytes(prefix) - Bytes(suffix) - Bytes(question);
    before := "";
    if roomChars >= 0 && roomBytes >= 0 {
      var part := Truncated(reference, roomChars, roomBytes);
      QuerySize(prefix, part, suffix, question);
      before := prefix + part + suffix;
    }
  }

  /** The query always ends in the whole question, and it exceeds a budget exactly when the
      question alone does. */
  lemma RetrievalQueryKeepsQuestion(c: Context, question: string, chars: int, bytes: int) returns (before: string)
    ensures var q := RetrievalQuery(c, question, chars, bytes);
            q == before + question && (Fits(q, chars, bytes) <==> Fits(question, chars, bytes))
  {
    before := FramedKeepsQuestion(PREFIX, SUFFIX, Render(c), question, chars, bytes);
  }
}
