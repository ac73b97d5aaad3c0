/** An assembled context keeps as much as the budgets allow: what one more turn or character would
    do, and when the whole conversation is kept.  The budgets are those of the rendered text. */
module ContextMaxima {
  import opened Numbers
  import opened Text
  import opened Turns
  import opened Sorting
  import opened Context
  import opened ContextLaws
  import Seqs

  /** A context with these three tiers; its counters do not matter to the rendered text. */
  function Showing(summary: string, relevant: seq<Line>, recent: seq<Line>): Context {
    Context(NonEmpty(summary), relevant, recent, 0, 0, 0, 0, false)
  }

  // ----- the recent tier -----

  lemma CandidatesAreLast(complete: seq<Turn>, maxTurns: int)
    requires 1 <= maxTurns
    ensures |Candidates(complete, maxTurns)| == Min(|complete|, maxTurns)
    ensures Candidates(complete, maxTurns) == complete[|complete| - Min(|complete|, maxTurns)..]
  {
  }

  lemma OneMoreExceeds(lines: seq<Line>, l: Limits, room: Room, candidates: seq<Turn>, newest: seq<Line>, kept: nat,
                       older: Turn)
    requires ValidLimits(l) && RecentKept(candidates, kept, newest, l, room.chars, room.bytes)
    requires lines == RecentLines(candidates, kept, newest, l)
    requires kept + 1 < |candidates| && older == candidates[|candidates| - 2 - kept]
    ensures !Fits(Component(RECENT, RenderMessages(CutTurn(older, l.maxMessageChars, l.maxBytes) + lines)),
                  room.chars, room.bytes)
  {
    OneOlder(candidates, kept, newest, l);
  }

  lemma RecentOfAssembled(c: Context, complete: seq<Turn>, candidates: seq<Turn>, turn: Turn, l: Limits,
                          summary: string, offered: seq<Turn>, fit: Fit, newest: seq<Line>, room: Room)
    requires ValidLimits(l) && Assembled(c, complete, candidates, turn, l, summary, offered, fit)
    requires newest == [Line(USER, fit.user), Line(ASSISTANT, fit.assistant)] && room == RoomAfter(l, FrontParts(c))
    ensures RecentKept(candidates, fit.kept, newest, l, room.chars, room.bytes) && c.recentTurns == fit.kept + 1
    ensures c.recent == RecentLines(candidates, fit.kept, newest, l)
  {
  }

  lemma NextOlder(complete: seq<Turn>, candidates: seq<Turn>, maxTurns: int, kept: nat, p: nat)
    requires 1 <= maxTurns && candidates == Candidates(complete, maxTurns)
    requires kept + 1 < |complete| && kept + 1 < maxTurns && p == |complete| - 2 - kept
    ensures kept + 1 < |candidates| && candidates[|candidates| - 2 - kept] == complete[p]
  {
    CandidatesAreLast(complete, maxTurns);
  }

  lemma RenderedExceeds(longer: Context, front: seq<string>, l: Limits, room: Room)
    requires longer.recent != [] && front == FrontParts(longer) && room == RoomAfter(l, front)
    requires !Fits(Component(RECENT, RenderMessages(longer.recent)), room.chars, room.bytes)
    ensures !Fits(Render(longer), l.maxChars, l.maxBytes)
  {
    RenderedSize(longer, l);
  }

  lemma LongerExceeds(c: Context, complete: seq<Turn>, candidates: seq<Turn>, l: Limits, room: Room, newest: seq<Line>,
                      kept: nat, p: nat, pair: seq<Line>, longer: Context)
    requires ValidLimits(l) && candidates == Candidates(complete, l.maxTurns) && room == RoomAfter(l, FrontParts(c))
    requires RecentKept(candidates, kept, newest, l, room.chars, room.bytes)
    requires c.recent == RecentLines(candidates, kept, newest, l)
    requires kept + 1 < |complete| && kept + 1 < l.maxTurns && p == |complete| - 2 - kept
    requires pair == CutTurn(complete[p], l.maxMessageChars, l.maxBytes) && longer == c.(recent := pair + c.recent)
    ensures !Fits(Render(longer), l.maxChars, l.maxBytes)
  {
    NextOlder(complete, candidates, l.maxTurns, kept, p);
    OneMoreExceeds(c.recent, l, room, candidates, newest, kept, complete[p]);
    RenderedExceeds(longer, FrontParts(c), l, room);
  }

  /** Fewer recent turns than the conversation and the turn limit have mean that one more would
      exceed a budget. */
  lemma RecentIsMaximal(c: Context, complete: seq<Turn>, l: Limits, summary: string, offered: seq<Turn>, fit: Fit,
                        p: nat, longer: Context)
    requires ValidLimits(l) && complete != []
    requires Assembled(c, complete, Candidates(complete, l.maxTurns), complete[|complete| - 1], l, summary, offered,
                       fit)
    requires c.recentTurns < |complete| && c.recentTurns < l.maxTurns && p == |complete| - 1 - c.recentTurns
    requires longer == c.(recent := CutTurn(complete[p], l.maxMessageChars, l.maxBytes) + c.recent)
    ensures !Fits(Render(longer), l.maxChars, l.maxBytes)
  {
    var candidates, newest := Candidates(complete, l.maxTurns), [Line(USER, fit.user), Line(ASSISTANT, fit.assistant)];
    var room := RoomAfter(l, FrontParts(c));
    RecentOfAssembled(c, complete, candidates, complete[|complete| - 1], l, summary, offered, fit, newest, room);
    LongerExceeds(c, complete, candidates, l, room, newest, fit.kept, p,
                  CutTurn(complete[p], l.maxMessageChars, l.maxBytes), longer);
  }

  // ----- the relevant tier -----

  /** How long the summary and relevant parts are with the newest turn behind them. */
  lemma PartFitsIff(l: Limits, parts: seq<string>, part: string, reserve: string)
    ensures var room, all := RoomBefore(l, parts, reserve), Join("\n\n", parts + [part] + [reserve]);
            Fits(part, room.chars, room.bytes) <==> Fits(all, l.maxChars, l.maxBytes)
  {
    JoinLength(parts, part);
    JoinLength(parts + [part], reserve);
  }

  lemma ShowingParts(summary: string, relevant: seq<Line>, recent: seq<Line>)
    ensures Render(Showing(summary, relevant, recent))
         == Join("\n\n", SummaryParts(NonEmpty(summary)) + LineParts(RELEVANT, relevant) + LineParts(RECENT, recent))
  {
  }

  /** The two front tiers of an assembled context. */
  lemma FrontOfAssembled(c: Context, complete: seq<Turn>, candidates: seq<Turn>, turn: Turn, l: Limits, summary: string,
                         offered: seq<Turn>, fit: Fit, reserve: string)
    requires ValidLimits(l) && Assembled(c, complete, candidates, turn, l, summary, offered, fit)
    requires reserve == NewestComponent(fit.user, fit.assistant)
    ensures FrontAssembled(c.summary, c.relevant, l, reserve, summary, offered, fit.taken)
    ensures c.relevantTurns == fit.taken && c.summary == NonEmpty(SummaryText(c.summary))
  {
  }

  lemma NextRelevantExceeds(lines: seq<Line>, l: Limits, room: Room, offered: seq<Turn>, taken: nat, more: seq<Line>)
    requires ValidLimits(l) && taken < |offered| && lines == Cut(offered[..taken], l)
    requires RelevantTaken(offered, l, Min(room.chars, l.relevantMaxChars + 70), room.bytes, taken)
    requires more == lines + CutTurn(offered[taken], l.maxMessageChars, l.maxBytes)
    ensures var part := Component(RELEVANT, RenderMessages(more));
            |part| > l.relevantMaxChars + 70 || !Fits(part, room.chars, room.bytes)
  {
    OneMore(offered, taken, l, lines, CutTurn(offered[taken], l.maxMessageChars, l.maxBytes));
  }

  lemma FitsWithNewest(l: Limits, summary: string, relevant: seq<Line>, user: string, assistant: string, part: string)
    requires relevant != [] && part == Component(RELEVANT, RenderMessages(relevant))
    ensures var room := RoomBefore(l, SummaryParts(NonEmpty(summary)), NewestComponent(user, assistant));
            Fits(part, room.chars, room.bytes)
            <==> Fits(Render(Showing(summary, relevant, [Line(USER, user), Line(ASSISTANT, assistant)])),
                      l.maxChars, l.maxBytes)
  {
    ShowingParts(summary, relevant, [Line(USER, user), Line(ASSISTANT, assistant)]);
    PartFitsIff(l, SummaryParts(NonEmpty(summary)), part, NewestComponent(user, assistant));
  }

  /** A relevant turn is left out only if the component would exceed its own limit with it, or the
      text of the summary, the relevant turns and the newest turn a budget. */
  lemma RelevantIsMaximal(c: Context, complete: seq<Turn>, candidates: seq<Turn>, turn: Turn, l: Limits,
                          summary: string, offered: seq<Turn>, fit: Fit, more: seq<Line>, newest: seq<Line>)
    requires ValidLimits(l) && Assembled(c, complete, candidates, turn, l, summary, offered, fit)
    requires newest == [Line(USER, fit.user), Line(ASSISTANT, fit.assistant)] && c.relevantTurns < |offered|
    requires more == c.relevant + CutTurn(offered[c.relevantTurns], l.maxMessageChars, l.maxBytes)
    ensures || |Component(RELEVANT, RenderMessages(more))| > l.relevantMaxChars + 70
            || !Fits(Render(Showing(SummaryText(c.summary), more, newest)), l.maxChars, l.maxBytes)
  {
    var reserve := NewestComponent(fit.user, fit.assistant);
    FrontOfAssembled(c, complete, candidates, turn, l, summary, offered, fit, reserve);
    NextRelevantExceeds(c.relevant, l, RoomBefore(l, SummaryParts(c.summary), reserve), offered, fit.taken, more);
    FitsWithNewest(l, SummaryText(c.summary), more, fit.user, fit.assistant,
                   Component(RELEVANT, RenderMessages(more)));
  }

  // ----- the summary -----

  lemma SummaryFitsWithNewest(l: Limits, summary: string, user: string, assistant: string)
    requires summary != ""
    ensures var room := RoomBefore(l, [], NewestComponent(user, assistant));
            Fits(Component(SUMMARY, summary), room.chars, room.bytes)
            <==> Fits(Render(Showing(summary, [], [Line(USER, user), Line(ASSISTANT, assistant)])), l.maxChars,
                      l.maxBytes)
  {
    var part, reserve := Component(SUMMARY, summary), NewestComponent(user, assistant);
    ShowingParts(summary, [], [Line(USER, user), Line(ASSISTANT, assistant)]);
    assert [part] + [] + [reserve] == [] + [part] + [reserve];
    PartFitsIff(l, [], part, reserve);
  }

  /** The summary is cut only at its own limit, or where one more character would make the text of
      the summary and the newest turn exceed a budget. */
  lemma SummaryIsMaximal(c: Context, complete: seq<Turn>, candidates: seq<Turn>, turn: Turn, l: Limits, summary: string,
                         offered: seq<Turn>, fit: Fit, newest: seq<Line>, n: nat)
    requires ValidLimits(l) && Assembled(c, complete, candidates, turn, l, summary, offered, fit)
    requires newest == [Line(USER, fit.user), Line(ASSISTANT, fit.assistant)]
    requires SummaryText(c.summary) != summary && n == |SummaryText(c.summary)| + 1
    ensures n <= |summary| && SummaryText(c.summary) == summary[..n - 1]
    ensures n > l.summaryMaxChars || !Fits(Render(Showing(summary[..n], [], newest)), l.maxChars, l.maxBytes)
  {
    var reserve := NewestComponent(fit.user, fit.assistant);
    var room := RoomBefore(l, [], reserve);
    FrontOfAssembled(c, complete, candidates, turn, l, summary, offered, fit, reserve);
    assert SummaryText(c.summary) == FittedSummary(summary, room, l);
    SummaryCutIsNeeded(summary, room, l, n);
    SummaryFitsWithNewest(l, summary[..n], fit.user, fit.assistant);
  }

  lemma SummaryCutIsNeeded(summary: string, room: Room, l: Limits, n: nat)
    requires ValidLimits(l) && FittedSummary(summary, room, l) != summary
    requires n == |FittedSummary(summary, room, l)| + 1
    ensures n <= |summary| && FittedSummary(summary, room, l) == summary[..n - 1]
    ensures n > l.summaryMaxChars || !Fits(Component(SUMMARY, summary[..n]), room.chars, room.bytes)
  {
    ComponentSize(SUMMARY, summary[..n]);
  }

  // ----- the newest turn -----

  /** With the character lost last the pair would not fit. */
  predicate OneTooMany(user: string, assistant: string, u: string, a: string, chars: int, bytes: int) {
    || (|u| < |user| && !PairFits(user[..|u| + 1], a, chars, bytes))
    || (|a| < |assistant| && !PairFits(u, assistant[..|a| + 1], chars, bytes))
  }

  lemma ShorterPrefix(s: string, shorter: string, n: nat)
    requires s != "" && shorter == s[..|s| - 1] && n <= |shorter|
    ensures n < |shorter| ==> shorter[..n + 1] == s[..n + 1]
    ensures n == |shorter| ==> s[..n + 1] == s
    ensures shorter[..n] == s[..n]
  {
  }

  lemma UserLostOne(user: string, shorter: string, assistant: string, u: string, a: string, chars: int, bytes: int)
    requires user != "" && shorter == user[..|user| - 1] && u <= shorter && a <= assistant
    requires !PairFits(user, assistant, chars, bytes)
    requires (u == shorter && a == assistant) || OneTooMany(shorter, assistant, u, a, chars, bytes)
    ensures OneTooMany(user, assistant, u, a, chars, bytes)
  {
    ShorterPrefix(user, shorter, |u|);
  }

  lemma AssistantLostOne(user: string, assistant: string, shorter: string, u: string, a: string, chars: int, bytes: int)
    requires assistant != "" && shorter == assistant[..|assistant| - 1] && u <= user && a <= shorter
    requires !PairFits(user, assistant, chars, bytes)
    requires (u == user && a == shorter) || OneTooMany(user, shorter, u, a, chars, bytes)
    ensures OneTooMany(user, assistant, u, a, chars, bytes)
  {
    ShorterPrefix(assistant, shorter, |a|);
  }

  /** The newest pair loses characters only if it does not fit, and then the last one that it lost
      was one too many. */
  lemma {:induction false} ShrinkIsMaximal(user: string, assistant: string, chars: int, bytes: int, u: string,
                                           a: string)
    requires user != "" && assistant != "" && (u, a) == Shrink(user, assistant, chars, bytes)
    ensures PairFits(user, assistant, chars, bytes) ==> u == user && a == assistant
    ensures u != user || a != assistant ==> OneTooMany(user, assistant, u, a, chars, bytes)
    decreases |user| + |assistant|
  {
    if !PairFits(user, assistant, chars, bytes) {
      if |user| >= |assistant| && |user| > 1 {
        var shorter := user[..|user| - 1];
        ShrinkUser(user, assistant, shorter, chars, bytes);
        ShrinkIsMaximal(shorter, assistant, chars, bytes, u, a);
        UserLostOne(user, shorter, assistant, u, a, chars, bytes);
      } else if |assistant| > 1 {
        var shorter := assistant[..|assistant| - 1];
        ShrinkAssistant(user, assistant, shorter, chars, bytes);
        ShrinkIsMaximal(user, shorter, chars, bytes, u, a);
        AssistantLostOne(user, assistant, shorter, u, a, chars, bytes);
      }
    }
  }

  // ----- when everything is kept -----

  /** No message exceeds its own limits. */
  predicate Uncut(turns: seq<Turn>, l: Limits)
    requires ValidLimits(l)
  {
    Cut(turns, l) == WholeTurns(turns)
  }

  /** The whole conversation, the whole summary and every offered turn are within their limits and
      fit the budgets together; an empty message would be shown as an ellipsis. */
  predicate WholeFits(complete: seq<Turn>, l: Limits, summary: string, offered: seq<Turn>)
    requires ValidLimits(l) && complete != []
  {
    var newest := complete[|complete| - 1];
    && |complete| <= l.maxTurns && Uncut(complete, l) && newest.user.content != "" && newest.assistant.content != ""
    && |summary| <= l.summaryMaxChars && Uncut(offered, l)
    && (offered != [] ==> |Component(RELEVANT, RenderMessages(WholeTurns(offered)))| <= l.relevantMaxChars + 70)
    && Fits(Render(Showing(summary, WholeTurns(offered), WholeTurns(complete))), l.maxChars, l.maxBytes)
  }

  /** More lines make a longer text. */
  lemma MoreLinesAreLonger(a: seq<Line>, b: seq<Line>)
    ensures |RenderMessages(a)| <= |RenderMessages(a + b)| && Bytes(RenderMessages(a)) <= Bytes(RenderMessages(a + b))
    ensures |RenderMessages(b)| <= |RenderMessages(a + b)| && Bytes(RenderMessages(b)) <= Bytes(RenderMessages(a + b))
  {
    if b == [] {
      assert a + b == a;
    } else {
      RenderAppend(a, b);
      if a != [] {
        BytesConcat(RenderMessages(a) + "\n", RenderMessages(b));
        BytesConcat(RenderMessages(a), "\n");
      }
    }
  }

  lemma ComponentOfFewer(heading: string, a: seq<Line>, all: seq<Line>, chars: int, bytes: int)
    requires |RenderMessages(a)| <= |RenderMessages(all)| && Bytes(RenderMessages(a)) <= Bytes(RenderMessages(all))
    requires Fits(Component(heading, RenderMessages(all)), chars, bytes)
    ensures Fits(Component(heading, RenderMessages(a)), chars, bytes)
  {
    ComponentSize(heading, RenderMessages(a));
    ComponentSize(heading, RenderMessages(all));
  }

  /** If all offered turns fit, so do the first ones. */
  lemma FewerRelevantFit(offered: seq<Turn>, n: nat, l: Limits, chars: int, bytes: int)
    requires ValidLimits(l) && n <= |offered| && RelevantFits(offered, |offered|, l, chars, bytes)
    ensures RelevantFits(offered, n, l, chars, bytes)
  {
    Seqs.TakeAll(offered);
    assert offered == offered[..n] + offered[n..];
    CutTurnsConcat(offered[..n], offered[n..], l.maxMessageChars, l.maxBytes);
    MoreLinesAreLonger(Cut(offered[..n], l), Cut(offered[n..], l));
    ComponentOfFewer(RELEVANT, Cut(offered[..n], l), Cut(offered, l), chars, bytes);
  }

  /** If all candidates fit, so do the last ones. */
  lemma FewerRecentFit(candidates: seq<Turn>, n: nat, m: nat, newest: seq<Line>, l: Limits, chars: int, bytes: int)
    requires ValidLimits(l) && n <= m < |candidates| && RecentFits(candidates, m, newest, l, chars, bytes)
    ensures RecentFits(candidates, n, newest, l, chars, bytes)
  {
    var q := |candidates| - 1;
    var early := candidates[q - m..q - n];
    assert Older(candidates, m) == early + Older(candidates, n);
    CutTurnsConcat(early, Older(candidates, n), l.maxMessageChars, l.maxBytes);
    Seqs.AppendAssoc(Cut(early, l), Cut(Older(candidates, n), l), newest);
    MoreLinesAreLonger(Cut(early, l), RecentLines(candidates, n, newest, l));
    ComponentOfFewer(RECENT, RecentLines(candidates, n, newest, l), RecentLines(candidates, m, newest, l), chars,
                     bytes);
  }

  predicate NoLonger(a: string, b: string) {
    |a| <= |b| && Bytes(a) <= Bytes(b)
  }

  lemma JoinedWithMore(front: seq<string>, more: seq<string>, part: string, longer: string)
    requires |more| <= 1 && NoLonger(part, longer)
    ensures NoLonger(Join("\n\n", front + [part]), Join("\n\n", front + more + [longer]))
  {
    JoinLength(front, part);
    JoinLength(front + more, longer);
    if more == [] {
      assert front + more == front;
    } else {
      assert more == [more[0]];
      JoinLength(front, more[0]);
    }
  }

  lemma WholeTurnsEnd(complete: seq<Turn>, n: nat)
    requires |complete| == n + 1
    ensures WholeTurns(complete) == WholeTurns(complete[..n]) + WholeTurn(complete[n])
  {
    assert complete[..|complete| - 1] == complete[..n];
  }

  /** What the rendered whole leaves for its parts: the newest turn alone, and the summary and the
      relevant turns in front of it. */
  lemma PartsOfWhole(complete: seq<Turn>, l: Limits, summary: string, offered: seq<Turn>, n: nat, newest: seq<Line>)
    requires ValidLimits(l) && |complete| == n + 1 && WholeFits(complete, l, summary, offered)
    requires newest == WholeTurn(complete[n])
    ensures Fits(Component(RECENT, RenderMessages(newest)), l.maxChars, l.maxBytes)
    ensures Fits(Render(Showing(summary, [], newest)), l.maxChars, l.maxBytes)
    ensures Fits(Render(Showing(summary, WholeTurns(offered), newest)), l.maxChars, l.maxBytes)
  {
    var s, r := SummaryParts(NonEmpty(summary)), LineParts(RELEVANT, WholeTurns(offered));
    var part := Component(RECENT, RenderMessages(newest));
    var whole := Component(RECENT, RenderMessages(WholeTurns(complete)));
    WholeTurnsEnd(complete, n);
    MoreLinesAreLonger(WholeTurns(complete[..n]), newest);
    ComponentSize(RECENT, RenderMessages(newest));
    ComponentSize(RECENT, RenderMessages(WholeTurns(complete)));
    ShowingParts(summary, WholeTurns(offered), WholeTurns(complete));
    ShowingParts(summary, WholeTurns(offered), newest);
    ShowingParts(summary, [], newest);
    JoinedWithMore(s + r, [], part, whole);
    Seqs.AppendEmpty(s + r);
    JoinedWithMore(s, r, part, whole);
    Seqs.AppendEmpty(s);
    JoinLength(s + r, whole);
  }

  lemma NewestIsKept(turn: Turn, l: Limits, u: string, a: string)
    requires ValidLimits(l) && (u, a) == Newest(turn, l)
    requires CutTurn(turn, l.maxMessageChars, l.maxBytes) == WholeTurn(turn)
    requires turn.user.content != "" && turn.assistant.content != ""
    requires PairFits(turn.user.content, turn.assistant.content, l.maxChars, l.maxBytes)
    ensures u == turn.user.content && a == turn.assistant.content && !NewestFlagged(turn, l, u, a)
  {
    SameLines(turn, NewestUser(turn, l), NewestAssistant(turn, l));
    ShrinkIsMaximal(turn.user.content, turn.assistant.content, l.maxChars, l.maxBytes, u, a);
  }

  lemma SummaryIsKept(summary: string, l: Limits, user: string, assistant: string)
    requires ValidLimits(l) && |summary| <= l.summaryMaxChars
    requires Fits(Render(Showing(summary, [], [Line(USER, user), Line(ASSISTANT, assistant)])), l.maxChars, l.maxBytes)
    ensures FittedSummary(summary, RoomBefore(l, [], NewestComponent(user, assistant)), l) == summary
  {
    var room := RoomBefore(l, [], NewestComponent(user, assistant));
    if FittedSummary(summary, room, l) != summary {
      var n := |FittedSummary(summary, room, l)| + 1;
      SummaryCutIsNeeded(summary, room, l, n);
      SummaryFitsWithNewest(l, summary, user, assistant);
      ComponentSize(SUMMARY, summary);
      ComponentSize(SUMMARY, summary[..n]);
      BytesOfPrefix(summary[..n], summary);
    }
  }

  lemma RelevantAreKept(offered: seq<Turn>, taken: nat, l: Limits, summary: string, user: string, assistant: string)
    requires ValidLimits(l) && Uncut(offered, l)
    requires offered != [] ==> |Component(RELEVANT, RenderMessages(WholeTurns(offered)))| <= l.relevantMaxChars + 70
    requires Fits(Render(Showing(summary, WholeTurns(offered), [Line(USER, user), Line(ASSISTANT, assistant)])),
                  l.maxChars, l.maxBytes)
    requires var room := RoomBefore(l, SummaryParts(NonEmpty(summary)), NewestComponent(user, assistant));
             RelevantTaken(offered, l, Min(room.chars, l.relevantMaxChars + 70), room.bytes, taken)
    ensures taken == |offered| && ShortenedIn(offered[..taken], l) == 0
  {
    var room := RoomBefore(l, SummaryParts(NonEmpty(summary)), NewestComponent(user, assistant));
    NoneShortened(offered, l.maxMessageChars, l.maxBytes);
    Seqs.TakeAll(offered);
    if taken < |offered| {
      FitsWithNewest(l, summary, WholeTurns(offered), user, assistant,
                     Component(RELEVANT, RenderMessages(WholeTurns(offered))));
      FewerRelevantFit(offered, taken + 1, l, Min(room.chars, l.relevantMaxChars + 70), room.bytes);
    }
  }

  lemma RecentAreKept(complete: seq<Turn>, l: Limits, kept: nat, n: nat, newest: seq<Line>, room: Room)
    requires ValidLimits(l) && |complete| == n + 1 <= l.maxTurns
    requires Uncut(complete, l) && newest == WholeTurn(complete[n])
    requires RecentKept(Candidates(complete, l.maxTurns), kept, newest, l, room.chars, room.bytes)
    requires Fits(Component(RECENT, RenderMessages(WholeTurns(complete))), room.chars, room.bytes)
    ensures kept == n && !RecentFlagged(Candidates(complete, l.maxTurns), l, kept)
    ensures |Candidates(complete, l.maxTurns)| == |complete|
  {
    CandidatesAreLast(complete, l.maxTurns);
    assert Candidates(complete, l.maxTurns) == complete && Older(complete, n) == complete[..n];
    AllOlder(complete, n, newest, l);
    if kept < n {
      FewerRecentFit(complete, kept + 1, n, newest, l, room.chars, room.bytes);
    }
  }

  lemma AllOlder(complete: seq<Turn>, n: nat, newest: seq<Line>, l: Limits)
    requires ValidLimits(l) && |complete| == n + 1 && Uncut(complete, l) && newest == WholeTurn(complete[n])
    ensures Older(complete, n) == complete[..n] && RecentLines(complete, n, newest, l) == WholeTurns(complete)
    ensures ShortenedIn(Older(complete, n), l) == 0
    ensures CutTurn(complete[n], l.maxMessageChars, l.maxBytes) == newest
  {
    SplitLast(complete);
    CutTurnsAppend(complete[..n], complete[n], l.maxMessageChars, l.maxBytes);
    SplitEqual(Cut(complete[..n], l), CutTurn(complete[n], l.maxMessageChars, l.maxBytes),
               WholeTurns(complete[..n]), newest);
    NoneShortened(complete[..n], l.maxMessageChars, l.maxBytes);
  }

  lemma FlagOfAssembled(c: Context, complete: seq<Turn>, candidates: seq<Turn>, turn: Turn, l: Limits, summary: string,
                        offered: seq<Turn>, fit: Fit)
    requires ValidLimits(l) && Assembled(c, complete, candidates, turn, l, summary, offered, fit)
    ensures (fit.user, fit.assistant) == Newest(turn, l) && fit.taken <= |offered| && fit.kept < |candidates|
    ensures c.truncated <==>
      || |candidates| < |complete| || NewestFlagged(turn, l, fit.user, fit.assistant)
      || FrontFlagged(c.summary, l, summary, offered, fit.taken) || RecentFlagged(candidates, l, fit.kept)
  {
  }

  lemma RoomOfWhole(c: Context, complete: seq<Turn>, l: Limits, summary: string, offered: seq<Turn>, room: Room)
    requires ValidLimits(l) && complete != [] && WholeFits(complete, l, summary, offered)
    requires c.summary == NonEmpty(summary) && c.relevant == WholeTurns(offered) && room == RoomAfter(l, FrontParts(c))
    ensures Fits(Component(RECENT, RenderMessages(WholeTurns(complete))), room.chars, room.bytes)
  {
    var whole := Showing(summary, WholeTurns(offered), WholeTurns(complete));
    RenderedSize(whole, l);
    assert FrontParts(whole) == FrontParts(c);
  }

  lemma WholeFrontIsKept(c: Context, complete: seq<Turn>, candidates: seq<Turn>, turn: Turn, l: Limits, summary: string,
                         offered: seq<Turn>, fit: Fit, newest: seq<Line>)
    requires ValidLimits(l) && Assembled(c, complete, candidates, turn, l, summary, offered, fit)
    requires newest == [Line(USER, fit.user), Line(ASSISTANT, fit.assistant)]
    requires |summary| <= l.summaryMaxChars && Uncut(offered, l)
    requires offered != [] ==> |Component(RELEVANT, RenderMessages(WholeTurns(offered)))| <= l.relevantMaxChars + 70
    requires Fits(Render(Showing(summary, [], newest)), l.maxChars, l.maxBytes)
    requires Fits(Render(Showing(summary, WholeTurns(offered), newest)), l.maxChars, l.maxBytes)
    ensures fit.taken <= |offered| && !FrontFlagged(c.summary, l, summary, offered, fit.taken)
    ensures c.summary == NonEmpty(summary) && c.relevant == WholeTurns(offered)
  {
    FrontOfAssembled(c, complete, candidates, turn, l, summary, offered, fit, NewestComponent(fit.user, fit.assistant));
    SummaryIsKept(summary, l, fit.user, fit.assistant);
    RelevantAreKept(offered, fit.taken, l, summary, fit.user, fit.assistant);
    Seqs.TakeAll(offered);
  }

  lemma WholeIsKept(c: Context, complete: seq<Turn>, candidates: seq<Turn>, turn: Turn, l: Limits, summary: string,
                    offered: seq<Turn>, fit: Fit, n: nat)
    requires ValidLimits(l) && |complete| == n + 1 && candidates == Candidates(complete, l.maxTurns)
    requires turn == complete[n] && Assembled(c, complete, candidates, turn, l, summary, offered, fit)
    requires WholeFits(complete, l, summary, offered)
    ensures !c.truncated
  {
    var newest, room := WholeTurn(turn), RoomAfter(l, FrontParts(c));
    PartsOfWhole(complete, l, summary, offered, n, newest);
    AllOlder(complete, n, newest, l);
    FlagOfAssembled(c, complete, candidates, turn, l, summary, offered, fit);
    NewestIsKept(turn, l, fit.user, fit.assistant);
    WholeFrontIsKept(c, complete, candidates, turn, l, summary, offered, fit, newest);
    RoomOfWhole(c, complete, l, summary, offered, room);
    RecentOfAssembled(c, complete, candidates, turn, l, summary, offered, fit, newest, room);
    RecentAreKept(complete, l, fit.kept, n, newest, room);
  }

  lemma UnflaggedNewest(turn: Turn, l: Limits, u: string, a: string)
    requires ValidLimits(l) && (u, a) == Newest(turn, l) && !NewestFlagged(turn, l, u, a)
    ensures PairFits(u, a, l.maxChars, l.maxBytes)
    ensures turn.user.content == u != "" && turn.assistant.content == a != ""
    ensures CutTurn(turn, l.maxMessageChars, l.maxBytes) == WholeTurn(turn)
  {
  }

  lemma UnflaggedFront(c: Context, l: Limits, reserve: string, summary: string, offered: seq<Turn>, taken: nat)
    requires ValidLimits(l) && FrontAssembled(c.summary, c.relevant, l, reserve, summary, offered, taken)
    requires !FrontFlagged(c.summary, l, summary, offered, taken)
    ensures |summary| <= l.summaryMaxChars && Uncut(offered, l)
    ensures offered != [] ==> |Component(RELEVANT, RenderMessages(WholeTurns(offered)))| <= l.relevantMaxChars + 70
  {
    Seqs.TakeAll(offered);
    NoneShortened(offered, l.maxMessageChars, l.maxBytes);
  }

  lemma FittingNewestRenders(c: Context, complete: seq<Turn>, candidates: seq<Turn>, turn: Turn, l: Limits,
                             summary: string, offered: seq<Turn>, fit: Fit)
    requires ValidLimits(l) && Assembled(c, complete, candidates, turn, l, summary, offered, fit)
    requires (fit.user, fit.assistant) == Newest(turn, l) && PairFits(fit.user, fit.assistant, l.maxChars, l.maxBytes)
    ensures Fits(Render(c), l.maxChars, l.maxBytes)
  {
    ShrinkFits(OrEllipsis(NewestUser(turn, l)), OrEllipsis(NewestAssistant(turn, l)), l.maxChars, l.maxBytes);
    WithinBudgetIffNewestCanFit(c, complete, candidates, turn, l, summary, offered, fit);
  }

  lemma SameTiersRenderAlike(c: Context, summary: string, relevant: seq<Line>, recent: seq<Line>)
    requires c.summary == NonEmpty(summary) && c.relevant == relevant && c.recent == recent
    ensures Render(c) == Render(Showing(summary, relevant, recent))
  {
  }

  lemma UnflaggedTurns(complete: seq<Turn>, candidates: seq<Turn>, turn: Turn, l: Limits, u: string, a: string,
                       kept: nat, n: nat)
    requires ValidLimits(l) && |complete| == n + 1 && turn == complete[n]
    requires candidates == Candidates(complete, l.maxTurns)
    requires |candidates| >= |complete| && kept < |candidates| && !RecentFlagged(candidates, l, kept)
    requires (u, a) == Newest(turn, l) && !NewestFlagged(turn, l, u, a)
    ensures |complete| <= l.maxTurns && Uncut(complete, l) && turn.user.content != "" && turn.assistant.content != ""
    ensures PairFits(u, a, l.maxChars, l.maxBytes)
  {
    UnflaggedNewest(turn, l, u, a);
    CandidatesAreLast(complete, l.maxTurns);
    OlderUncut(complete, candidates, l, n);
  }

  lemma UnflaggedFits(c: Context, complete: seq<Turn>, l: Limits, summary: string, offered: seq<Turn>, fit: Fit)
    requires ValidLimits(l) && complete != []
    requires Assembled(c, complete, Candidates(complete, l.maxTurns), complete[|complete| - 1], l, summary, offered,
                       fit)
    requires !c.truncated
    ensures WholeFits(complete, l, summary, offered)
  {
    var candidates, turn := Candidates(complete, l.maxTurns), complete[|complete| - 1];
    var reserve := NewestComponent(fit.user, fit.assistant);
    FlagOfAssembled(c, complete, candidates, turn, l, summary, offered, fit);
    FrontOfAssembled(c, complete, candidates, turn, l, summary, offered, fit, reserve);
    UnflaggedFront(c, l, reserve, summary, offered, fit.taken);
    UnflaggedTurns(complete, candidates, turn, l, fit.user, fit.assistant, fit.kept, |complete| - 1);
    FittingNewestRenders(c, complete, candidates, turn, l, summary, offered, fit);
    UnflaggedLosesNothing(c, complete, l, summary, offered, fit);
    SameTiersRenderAlike(c, summary, WholeTurns(offered), WholeTurns(complete));
  }

  lemma OlderUncut(complete: seq<Turn>, candidates: seq<Turn>, l: Limits, n: nat)
    requires ValidLimits(l) && |complete| == n + 1 && candidates == complete
    requires ShortenedIn(Older(candidates, n), l) == 0
    requires CutTurn(complete[n], l.maxMessageChars, l.maxBytes) == WholeTurn(complete[n])
    ensures Uncut(complete, l)
  {
    assert Older(complete, n) == complete[..n];
    SplitLast(complete);
    CutTurnsAppend(complete[..n], complete[n], l.maxMessageChars, l.maxBytes);
    NoneShortened(complete[..n], l.maxMessageChars, l.maxBytes);
  }

  /** A context with a complete turn is unflagged exactly when everything it was given is within its
      limits and fits the budgets together. */
  lemma UnflaggedIffWholeFits(c: Context, complete: seq<Turn>, l: Limits, summary: string, offered: seq<Turn>, fit: Fit)
    requires ValidLimits(l) && complete != []
    requires Assembled(c, complete, Candidates(complete, l.maxTurns), complete[|complete| - 1], l, summary, offered,
                       fit)
    ensures !c.truncated <==> WholeFits(complete, l, summary, offered)
  {
    var n := |complete| - 1;
    if WholeFits(complete, l, summary, offered) {
      WholeIsKept(c, complete, Candidates(complete, l.maxTurns), complete[n], l, summary, offered, fit, n);
    } else if !c.truncated {
      UnflaggedFits(c, complete, l, summary, offered, fit);
    }
  }
}
