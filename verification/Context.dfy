/** The bounded conversation context: src/zglab_rag/conversation/context.py. */
module Context {
  import opened Numbers
  import opened Options
  import opened Text
  import opened Turns
  import opened Sorting
  import Seqs

  datatype Result<T> = Success(value: T) | Failure

  // ----- cutting a text to a character and a byte budget -----

  predicate Fits(s: string, chars: int, bytes: int) {
    |s| <= chars && Bytes(s) <= bytes
  }

  /** The length of the longest prefix, of at most `n` characters, within `bytes`. */
  function FitLength(s: string, n: nat, bytes: nat): (r: nat)
    requires n <= |s|
    ensures r <= n && Bytes(s[..r]) <= bytes
    ensures forall m :: r < m <= n ==> Bytes(s[..m]) > bytes
  {
    if n == 0 || Bytes(s[..n]) <= bytes then n
    else
      var r := FitLength(s, n - 1, bytes);
      r
  }

  function Truncated(s: string, chars: nat, bytes: nat): (r: string)
    ensures r <= s && Fits(r, chars, bytes)
    ensures forall m :: |r| < m <= |s| ==> !Fits(s[..m], chars, bytes)
  {
    s[..FitLength(s, Min(|s|, chars), bytes)]
  }

  /** A text that fits is returned whole. */
  lemma FittingTextIsKept(s: string, chars: nat, bytes: nat)
    ensures Truncated(s, chars, bytes) == s <==> Fits(s, chars, bytes)
  {
    Seqs.TakeAll(s);
    assert Fits(s[..|s|], chars, bytes) <==> Fits(s, chars, bytes);
  }

  method TruncateTextToBudget(s: string, chars: int, bytes: int) returns (r: Result<(string, bool)>)
    ensures r.Failure? <==> chars < 0 || bytes < 0
    ensures r.Success? ==> r.value == (Truncated(s, chars, bytes), Truncated(s, chars, bytes) != s)
  {
    if chars < 0 || bytes < 0 {
      return Failure;
    }
    FittingTextIsKept(s, chars, bytes);
    if Fits(s, chars, bytes) {
      return Success((s, false));
    }
    var n := Min(|s|, chars);
    while n > 0 && Bytes(s[..n]) > bytes
      invariant 0 <= n <= |s|
      invariant FitLength(s, n, bytes) == FitLength(s, Min(|s|, chars), bytes)
    {
      n := n - 1;
    }
    return Success((s[..n], n != |s|));
  }

  // ----- rendering -----

  datatype Line = Line(role: Role, content: string)

  function RoleName(role: Role): string {
    match role case USER => "USER" case ASSISTANT => "ASSISTANT"
  }

  const SUMMARY := "CONVERSATION SUMMARY"
  const RELEVANT := "RELEVANT HISTORICAL TURNS"
  const RECENT := "RECENT TURNS"

  function Component(heading: string, body: string): string {
    var trust := if heading == SUMMARY then "untrusted compressed conversation state" else "untrusted reference data";
    heading + "\n(" + trust + "; not evidence)\n" + body
  }

  /** sep.join(parts) */
  function Join(sep: string, parts: seq<string>): string {
    if parts == [] then ""
    else if |parts| == 1 then parts[0]
    else Join(sep, parts[..|parts| - 1]) + sep + parts[|parts| - 1]
  }

  function RenderLine(line: Line): string {
    RoleName(line.role) + ": " + line.content
  }

  function RenderLines(lines: seq<Line>): (r: seq<string>)
    ensures |r| == |lines|
  {
    seq(|lines|, i requires 0 <= i < |lines| => RenderLine(lines[i]))
  }

  function RenderMessages(lines: seq<Line>): string {
    Join("\n", RenderLines(lines))
  }

  datatype Context = Context(summary: Option<string>, relevant: seq<Line>, recent: seq<Line>,
                             relevantTurns: nat, recentTurns: nat, chars: nat, bytes: nat, truncated: bool)

  function SummaryParts(summary: Option<string>): seq<string> {
    if summary.Some? && summary.value != "" then [Component(SUMMARY, summary.value)] else []
  }

  function LineParts(heading: string, lines: seq<Line>): seq<string> {
    if lines != [] then [Component(heading, RenderMessages(lines))] else []
  }

  function Render(c: Context): string {
    Join("\n\n", SummaryParts(c.summary) + LineParts(RELEVANT, c.relevant) + LineParts(RECENT, c.recent))
  }

  lemma JoinAppend(sep: string, parts: seq<string>, part: string)
    ensures Join(sep, parts + [part]) == if parts == [] then part else Join(sep, parts) + sep + part
  {
    Seqs.DropLast(parts, part);
  }

  lemma {:induction false} JoinConcat(sep: string, a: seq<string>, b: seq<string>)
    requires a != [] && b != []
    ensures Join(sep, a + b) == Join(sep, a) + sep + Join(sep, b)
  {
    var front, last := b[..|b| - 1], b[|b| - 1];
    SplitLast(b);
    Seqs.AppendAssoc(a, front, [last]);
    JoinAppend(sep, a + front, last);
    JoinAppend(sep, front, last);
    if front == [] {
      Seqs.AppendEmpty(a);
    } else {
      JoinConcat(sep, a, front);
      JoinedAssoc(Join(sep, a) + sep, Join(sep, front), sep, last);
    }
  }

  lemma JoinedAssoc(a: string, b: string, sep: string, last: string)
    ensures a + b + sep + last == a + (b + sep + last)
  {
    Seqs.AppendAssoc(a, b + sep, last);
    Seqs.AppendAssoc(a, b, sep);
  }

  lemma BytesOfGap()
    ensures Bytes("\n\n") == 2
  {
    assert "\n\n"[..1] == "\n";
    assert "\n"[..0] == "";
  }

  /** Joining one more part adds its length and, after the first, two for the gap. */
  lemma JoinLength(parts: seq<string>, part: string)
    ensures var gap := if parts == [] then 0 else 2;
            && |Join("\n\n", parts + [part])| == |Join("\n\n", parts)| + gap + |part|
            && Bytes(Join("\n\n", parts + [part])) == Bytes(Join("\n\n", parts)) + gap + Bytes(part)
  {
    JoinAppend("\n\n", parts, part);
    if parts != [] {
      BytesOfGap();
      BytesConcat(Join("\n\n", parts), "\n\n");
      BytesConcat(Join("\n\n", parts) + "\n\n", part);
    }
  }

  // ----- cutting turns -----

  function CutTurn(turn: Turn, chars: nat, bytes: nat): (lines: seq<Line>)
    ensures |lines| == 2
  {
    [Line(USER, Truncated(turn.user.content, chars, bytes)),
     Line(ASSISTANT, Truncated(turn.assistant.content, chars, bytes))]
  }

  function WholeTurn(turn: Turn): (lines: seq<Line>)
    ensures |lines| == 2
  {
    [Line(USER, turn.user.content), Line(ASSISTANT, turn.assistant.content)]
  }

  function CutTurns(turns: seq<Turn>, chars: nat, bytes: nat): (lines: seq<Line>)
    ensures |lines| == 2 * |turns|
  {
    if turns == [] then []
    else CutTurns(turns[..|turns| - 1], chars, bytes) + CutTurn(turns[|turns| - 1], chars, bytes)
  }

  function WholeTurns(turns: seq<Turn>): (lines: seq<Line>)
    ensures |lines| == 2 * |turns|
  {
    if turns == [] then []
    else WholeTurns(turns[..|turns| - 1]) + WholeTurn(turns[|turns| - 1])
  }

  /** How many turns the budgets shorten. */
  function Shortened(turns: seq<Turn>, chars: nat, bytes: nat): nat {
    if turns == [] then 0
    else
      var turn := turns[|turns| - 1];
      Shortened(turns[..|turns| - 1], chars, bytes) + if CutTurn(turn, chars, bytes) == WholeTurn(turn) then 0 else 1
  }

  lemma SplitEqual<T>(a: seq<T>, b: seq<T>, c: seq<T>, d: seq<T>)
    requires |a| == |c|
    ensures a + b == c + d <==> a == c && b == d
  {
    if a + b == c + d {
      assert (a + b)[..|a|] == a && (c + d)[..|c|] == c;
      assert (a + b)[|a|..] == b && (c + d)[|c|..] == d;
    }
  }

  lemma {:induction false} NoneShortened(turns: seq<Turn>, chars: nat, bytes: nat)
    ensures Shortened(turns, chars, bytes) == 0 <==> CutTurns(turns, chars, bytes) == WholeTurns(turns)
  {
    if turns != [] {
      var front, last := turns[..|turns| - 1], turns[|turns| - 1];
      NoneShortened(front, chars, bytes);
      SplitEqual(CutTurns(front, chars, bytes), CutTurn(last, chars, bytes), WholeTurns(front), WholeTurn(last));
    }
  }

  lemma CutTurnsAppend(turns: seq<Turn>, turn: Turn, chars: nat, bytes: nat)
    ensures CutTurns(turns + [turn], chars, bytes) == CutTurns(turns, chars, bytes) + CutTurn(turn, chars, bytes)
    ensures WholeTurns(turns + [turn]) == WholeTurns(turns) + WholeTurn(turn)
    ensures Shortened(turns + [turn], chars, bytes)
         == Shortened(turns, chars, bytes) + if CutTurn(turn, chars, bytes) == WholeTurn(turn) then 0 else 1
  {
    Seqs.DropLast(turns, turn);
  }

  lemma {:induction false} CutTurnsConcat(a: seq<Turn>, b: seq<Turn>, chars: nat, bytes: nat)
    ensures CutTurns(a + b, chars, bytes) == CutTurns(a, chars, bytes) + CutTurns(b, chars, bytes)
    ensures WholeTurns(a + b) == WholeTurns(a) + WholeTurns(b)
    ensures Shortened(a + b, chars, bytes) == Shortened(a, chars, bytes) + Shortened(b, chars, bytes)
  {
    if b == [] {
      Seqs.AppendEmpty(a);
      Seqs.AppendEmpty(CutTurns(a, chars, bytes));
      Seqs.AppendEmpty(WholeTurns(a));
    } else {
      var front, last := b[..|b| - 1], b[|b| - 1];
      SplitLast(b);
      Seqs.AppendAssoc(a, front, [last]);
      CutTurnsConcat(a, front, chars, bytes);
      CutTurnsAppend(a + front, last, chars, bytes);
      CutTurnsAppend(front, last, chars, bytes);
      Seqs.AppendAssoc(CutTurns(a, chars, bytes), CutTurns(front, chars, bytes), CutTurn(last, chars, bytes));
      Seqs.AppendAssoc(WholeTurns(a), WholeTurns(front), WholeTurn(last));
    }
  }

  // ----- fitting the newest turn -----

  function NewestComponent(user: string, assistant: string): string {
    Component(RECENT, RenderMessages([Line(USER, user), Line(ASSISTANT, assistant)]))
  }

  predicate PairFits(user: string, assistant: string, chars: int, bytes: int) {
    Fits(NewestComponent(user, assistant), chars, bytes)
  }

  /** The caption, role names and separators around the two contents. */
  lemma NewestSize(user: string, assistant: string)
    ensures |NewestComponent(user, assistant)| == |NewestComponent("", "")| + |user| + |assistant|
    ensures Bytes(NewestComponent(user, assistant)) == Bytes(NewestComponent("", "")) + Bytes(user) + Bytes(assistant)
    ensures |NewestComponent("", "")| <= 100
  {
    var caption := Component(RECENT, "");
    NewestParts(caption, user, assistant);
    NewestParts(caption, "", "");
    assert caption + "" == caption;
  }

  lemma NewestParts(caption: string, user: string, assistant: string)
    requires caption == Component(RECENT, "")
    ensures |NewestComponent(user, assistant)| == |caption| + 18 + |user| + |assistant|
    ensures Bytes(NewestComponent(user, assistant))
         == Bytes(caption) + Bytes("USER: ") + Bytes(user) + Bytes("\n") + Bytes("ASSISTANT: ") + Bytes(assistant)
    ensures |caption| <= 60
  {
    var lines := [Line(USER, user), Line(ASSISTANT, assistant)];
    var a, b := "USER: " + user, "ASSISTANT: " + assistant;
    assert RenderLine(lines[0]) == a && RenderLine(lines[1]) == b by {
      assert "USER" + ": " == "USER: " && "ASSISTANT" + ": " == "ASSISTANT: ";
    }
    assert RenderLines(lines) == [a] + [b];
    JoinAppend("\n", [a], b);
    assert RenderMessages(lines) == a + "\n" + b;
    assert NewestComponent(user, assistant) == caption + (a + "\n" + b);
    BytesConcat(caption, a + "\n" + b);
    BytesConcat(a + "\n", b);
    BytesConcat(a, "\n");
    BytesConcat("USER: ", user);
    BytesConcat("ASSISTANT: ", assistant);
  }

  /** Drop characters from the longer content, the user's on a tie, until the pair fits or
      one character of each is left. */
  function Shrink(user: string, assistant: string, chars: int, bytes: int): (r: (string, string))
    requires user != "" && assistant != ""
    ensures r.0 != "" && r.1 != "" && r.0 <= user && r.1 <= assistant
    decreases |user| + |assistant|
  {
    if PairFits(user, assistant, chars, bytes) then (user, assistant)
    else if |user| >= |assistant| && |user| > 1 then Shrink(user[..|user| - 1], assistant, chars, bytes)
    else if |assistant| > 1 then Shrink(user, assistant[..|assistant| - 1], chars, bytes)
    else (user, assistant)
  }

  lemma PairFitsMonotone(u: string, a: string, user: string, assistant: string, chars: int, bytes: int)
    requires u <= user && a <= assistant && PairFits(user, assistant, chars, bytes)
    ensures PairFits(u, a, chars, bytes)
  {
    NewestSize(u, a);
    NewestSize(user, assistant);
    BytesOfPrefix(u, user);
    BytesOfPrefix(a, assistant);
  }

  lemma ShrinkUser(user: string, assistant: string, shorter: string, chars: int, bytes: int)
    requires assistant != "" && |user| >= |assistant| && |user| > 1 && shorter == user[..|user| - 1]
    requires !PairFits(user, assistant, chars, bytes)
    ensures Shrink(user, assistant, chars, bytes) == Shrink(shorter, assistant, chars, bytes)
    ensures shorter[..1] == user[..1]
  {
  }

  lemma ShrinkAssistant(user: string, assistant: string, shorter: string, chars: int, bytes: int)
    requires user != "" && (|user| < |assistant| || |user| <= 1) && |assistant| > 1
    requires shorter == assistant[..|assistant| - 1] && !PairFits(user, assistant, chars, bytes)
    ensures Shrink(user, assistant, chars, bytes) == Shrink(user, shorter, chars, bytes)
    ensures shorter[..1] == assistant[..1]
  {
  }

  /** Shrinking succeeds exactly when one character of each message fits, and it is fair:
      a shortened content is never more than one character behind the other. */
  lemma {:induction false} ShrinkFits(user: string, assistant: string, chars: int, bytes: int)
    requires user != "" && assistant != ""
    ensures var (u, a) := Shrink(user, assistant, chars, bytes);
            && (PairFits(u, a, chars, bytes) <==> PairFits(user[..1], assistant[..1], chars, bytes))
            && (u != user ==> |a| <= |u| + 1)
            && (a != assistant ==> |u| <= |a|)
    decreases |user| + |assistant|
  {
    if PairFits(user, assistant, chars, bytes) {
      PairFitsMonotone(user[..1], assistant[..1], user, assistant, chars, bytes);
    } else if |user| >= |assistant| && |user| > 1 {
      var shorter := user[..|user| - 1];
      ShrinkUser(user, assistant, shorter, chars, bytes);
      ShrinkFits(shorter, assistant, chars, bytes);
    } else if |assistant| > 1 {
      var shorter := assistant[..|assistant| - 1];
      ShrinkAssistant(user, assistant, shorter, chars, bytes);
      ShrinkFits(user, shorter, chars, bytes);
    } else {
      assert user[..1] == user && assistant[..1] == assistant;
    }
  }

  const ELLIPSIS := "\U{2026}"

  function OrEllipsis(s: string): (r: string)
    ensures r != ""
  {
    if s == "" then ELLIPSIS else s
  }

  method FitNewestPair(user: string, assistant: string, chars: int, bytes: int)
    returns (u: string, a: string, truncated: bool)
    ensures (u, a) == Shrink(OrEllipsis(user), OrEllipsis(assistant), chars, bytes)
    ensures truncated <==> u != user || a != assistant || !PairFits(u, a, chars, bytes)
  {
    u, a := OrEllipsis(user), OrEllipsis(assistant);
    truncated := u != user || a != assistant;
    while true
      invariant u != "" && a != "" && u <= OrEllipsis(user) && a <= OrEllipsis(assistant)
      invariant Shrink(u, a, chars, bytes) == Shrink(OrEllipsis(user), OrEllipsis(assistant), chars, bytes)
      invariant truncated <==> u != user || a != assistant
      decreases |u| + |a|
    {
      if PairFits(u, a, chars, bytes) {
        return;
      }
      if |u| >= |a| && |u| > 1 {
        u := u[..|u| - 1];
      } else if |a| > 1 {
        a := a[..|a| - 1];
      } else {
        return u, a, true;
      }
      truncated := true;
    }
  }

  // ----- the three tiers -----

  datatype Limits = Limits(maxTurns: int, maxChars: int, maxMessageChars: int, maxBytes: int,
                           summaryMaxChars: int, relevantMaxChars: int)

  predicate ValidLimits(l: Limits) {
    && 1 <= l.maxTurns && 1 <= l.maxChars && 1 <= l.maxMessageChars && 1 <= l.maxBytes
    && 0 <= l.summaryMaxChars && 0 <= l.relevantMaxChars
  }

  function Cut(turns: seq<Turn>, l: Limits): (lines: seq<Line>)
    requires ValidLimits(l)
  {
    CutTurns(turns, l.maxMessageChars, l.maxBytes)
  }

  function ShortenedIn(turns: seq<Turn>, l: Limits): nat
    requires ValidLimits(l)
  {
    Shortened(turns, l.maxMessageChars, l.maxBytes)
  }

  /** The relevant turns that are not among the recent candidates. */
  function Eligible(turns: seq<Turn>, recentIds: set<int>): seq<Turn> {
    if turns == [] then []
    else
      var turn := turns[|turns| - 1];
      Eligible(turns[..|turns| - 1], recentIds)
      + if turn.user.id in recentIds || turn.assistant.id in recentIds then [] else [turn]
  }

  /** The component made of the first `n` turns fits. */
  predicate RelevantFits(turns: seq<Turn>, n: nat, l: Limits, chars: int, bytes: int)
    requires ValidLimits(l) && n <= |turns|
  {
    Fits(Component(RELEVANT, RenderMessages(Cut(turns[..n], l))), chars, bytes)
  }

  /** The first `n` turns are taken: they fit, and one more turn would not. */
  ghost predicate RelevantTaken(turns: seq<Turn>, l: Limits, chars: int, bytes: int, n: nat)
    requires ValidLimits(l)
  {
    && n <= |turns|
    && (0 < n ==> RelevantFits(turns, n, l, chars, bytes))
    && (n < |turns| ==> !RelevantFits(turns, n + 1, l, chars, bytes))
  }

  lemma RenderAppend(lines: seq<Line>, more: seq<Line>)
    requires more != []
    ensures RenderMessages(lines + more)
         == if lines == [] then RenderMessages(more) else RenderMessages(lines) + "\n" + RenderMessages(more)
  {
    assert RenderLines(lines + more) == RenderLines(lines) + RenderLines(more);
    if lines == [] {
      assert lines + more == more;
    } else {
      JoinConcat("\n", RenderLines(lines), RenderLines(more));
    }
  }

  /** Joining rendered turns renders the turns' lines. */
  lemma NextBody(body: seq<string>, lines: seq<Line>, pair: seq<Line>)
    requires pair != [] && (body == [] <==> lines == []) && Join("\n", body) == RenderMessages(lines)
    ensures Join("\n", body + [RenderMessages(pair)]) == RenderMessages(lines + pair)
  {
    RenderAppend(lines, pair);
    JoinAppend("\n", body, RenderMessages(pair));
  }

  /** The rendered turns in `body` are the turns whose lines are `lines`. */
  ghost predicate BodyOf(body: seq<string>, lines: seq<Line>) {
    (body == [] <==> lines == []) && Join("\n", body) == RenderMessages(lines)
  }

  /** Render the next turn after the ones taken and see whether the component still fits. */
  method TryRelevant(turn: Turn, body0: seq<string>, lines0: seq<Line>, l: Limits, chars: int, bytes: int,
                     ghost eligible: seq<Turn>, ghost n: nat, ghost m: nat)
    returns (fits: bool, body: seq<string>, lines: seq<Line>, truncated: bool)
    requires ValidLimits(l) && n < |eligible| && turn == eligible[n] && m == n + 1
    requires lines0 == Cut(eligible[..n], l) && BodyOf(body0, lines0)
    ensures fits <==> RelevantFits(eligible, m, l, chars, bytes)
    ensures lines == Cut(eligible[..m], l) && BodyOf(body, lines)
    ensures ShortenedIn(eligible[..m], l) == ShortenedIn(eligible[..n], l) + if truncated then 1 else 0
  {
    var pair := CutTurn(turn, l.maxMessageChars, l.maxBytes);
    truncated := pair != WholeTurn(turn);
    OneMore(eligible, n, l, lines0, pair);
    NextBody(body0, lines0, pair);
    lines, body := lines0 + pair, body0 + [RenderMessages(pair)];
    var rendered := Component(RELEVANT, Join("\n", body));
    fits := |rendered| <= chars && Bytes(rendered) <= bytes;
  }

  method RelevantTier(turns: seq<Turn>, recentIds: set<int>, l: Limits, chars: int, bytes: int)
    returns (lines: seq<Line>, truncated: bool, n: nat)
    requires ValidLimits(l)
    ensures RelevantTaken(Eligible(turns, recentIds), l, chars, bytes, n)
    ensures lines == Cut(Eligible(turns, recentIds)[..n], l)
    ensures truncated <==> n < |Eligible(turns, recentIds)| || ShortenedIn(Eligible(turns, recentIds)[..n], l) > 0
  {
    ghost var eligible := Eligible(turns, recentIds);
    lines, truncated, n := [], false, 0;
    var body: seq<string> := [];
    var i := 0;
    while i < |turns|
      invariant i <= |turns|
      invariant n == |Eligible(turns[..i], recentIds)| <= |eligible|
      invariant 0 < n ==> RelevantFits(eligible, n, l, chars, bytes)
      invariant lines == Cut(eligible[..n], l) && BodyOf(body, lines)
      invariant truncated <==> ShortenedIn(eligible[..n], l) > 0
    {
      var turn, j, m := turns[i], i + 1, n + 1;
      EligiblePrefix(turns, recentIds, eligible, i, j, n, m);
      if turn.user.id !in recentIds && turn.assistant.id !in recentIds {
        var fits, newBody, newLines, cut := TryRelevant(turn, body, lines, l, chars, bytes, eligible, n, m);
        if !fits {
          truncated := true;
          return;
        }
        body, lines, truncated, n := newBody, newLines, truncated || cut, m;
      }
      i := j;
    }
    Seqs.TakeAll(turns);
  }

  /** The next turn looked at is the next eligible one, unless it is a recent one. */
  lemma EligiblePrefix(turns: seq<Turn>, recentIds: set<int>, eligible: seq<Turn>, i: nat, j: nat, n: nat, m: nat)
    requires i < |turns| && j == i + 1 && m == n + 1
    requires eligible == Eligible(turns, recentIds) && n == |Eligible(turns[..i], recentIds)|
    ensures if turns[i].user.id in recentIds || turns[i].assistant.id in recentIds then
              n == |Eligible(turns[..j], recentIds)|
            else
              n < |eligible| && eligible[n] == turns[i] && m == |Eligible(turns[..j], recentIds)| && m <= |eligible|
  {
    Seqs.TakeNext(turns, i);
    Seqs.DropLast(turns[..i], turns[i]);
    EligibleMonotone(turns, recentIds, j);
  }

  lemma {:induction false} EligibleMonotone(turns: seq<Turn>, recentIds: set<int>, i: nat)
    requires i <= |turns|
    ensures Eligible(turns[..i], recentIds) <= Eligible(turns, recentIds)
    decreases |turns| - i
  {
    if i == |turns| {
      Seqs.TakeAll(turns);
    } else {
      Seqs.TakeNext(turns, i);
      Seqs.DropLast(turns[..i], turns[i]);
      EligibleMonotone(turns, recentIds, i + 1);
    }
  }

  /** Taking one more turn extends the cut lines. */
  lemma OneMore(turns: seq<Turn>, n: nat, l: Limits, lines: seq<Line>, pair: seq<Line>)
    requires ValidLimits(l) && n < |turns| && lines == Cut(turns[..n], l)
    requires pair == CutTurn(turns[n], l.maxMessageChars, l.maxBytes)
    ensures Cut(turns[..n + 1], l) == lines + pair
    ensures ShortenedIn(turns[..n + 1], l) == ShortenedIn(turns[..n], l) + if pair == WholeTurn(turns[n]) then 0 else 1
  {
    Seqs.TakeNext(turns, n);
    CutTurnsAppend(turns[..n], turns[n], l.maxMessageChars, l.maxBytes);
  }

  /** The last `n` turns before the newest one. */
  function Older(candidates: seq<Turn>, n: nat): seq<Turn>
    requires n < |candidates|
  {
    candidates[|candidates| - 1 - n..|candidates| - 1]
  }

  function RecentLines(candidates: seq<Turn>, n: nat, newest: seq<Line>, l: Limits): seq<Line>
    requires ValidLimits(l) && n < |candidates|
  {
    Cut(Older(candidates, n), l) + newest
  }

  function RecentComponent(candidates: seq<Turn>, n: nat, newest: seq<Line>, l: Limits): string
    requires ValidLimits(l) && n < |candidates|
  {
    Component(RECENT, RenderMessages(RecentLines(candidates, n, newest, l)))
  }

  predicate RecentFits(candidates: seq<Turn>, n: nat, newest: seq<Line>, l: Limits, chars: int, bytes: int)
    requires ValidLimits(l) && n < |candidates|
  {
    Fits(RecentComponent(candidates, n, newest, l), chars, bytes)
  }

  /** `n` turns before the newest are kept: they fit with it, and one more would not. */
  ghost predicate RecentKept(candidates: seq<Turn>, n: nat, newest: seq<Line>, l: Limits, chars: int, bytes: int)
    requires ValidLimits(l)
  {
    && n < |candidates|
    && (0 < n ==> RecentFits(candidates, n, newest, l, chars, bytes))
    && (n + 1 < |candidates| ==> !RecentFits(candidates, n + 1, newest, l, chars, bytes))
  }

  lemma OneOlder(candidates: seq<Turn>, n: nat, newest: seq<Line>, l: Limits)
    requires ValidLimits(l) && n + 1 < |candidates|
    ensures var turn := candidates[|candidates| - 2 - n];
            var pair := CutTurn(turn, l.maxMessageChars, l.maxBytes);
            && RecentLines(candidates, n + 1, newest, l) == pair + RecentLines(candidates, n, newest, l)
            && ShortenedIn(Older(candidates, n + 1), l)
               == ShortenedIn(Older(candidates, n), l) + if pair == WholeTurn(turn) then 0 else 1
  {
    var turn := candidates[|candidates| - 2 - n];
    assert Older(candidates, n + 1) == [turn] + Older(candidates, n);
    CutTurnsConcat([turn], Older(candidates, n), l.maxMessageChars, l.maxBytes);
    OneTurn(turn, l.maxMessageChars, l.maxBytes);
    Seqs.AppendAssoc(CutTurn(turn, l.maxMessageChars, l.maxBytes), Cut(Older(candidates, n), l), newest);
  }

  lemma OneTurn(turn: Turn, chars: nat, bytes: nat)
    ensures CutTurns([turn], chars, bytes) == CutTurn(turn, chars, bytes)
    ensures Shortened([turn], chars, bytes) == if CutTurn(turn, chars, bytes) == WholeTurn(turn) then 0 else 1
  {
    assert [turn][..0] == [];
  }

  /** Put the next older turn in front and see whether the component still fits. */
  method TryOlder(candidates: seq<Turn>, n: nat, m: nat, ghost newest: seq<Line>, lines0: seq<Line>, l: Limits,
                  chars: int, bytes: int)
    returns (fits: bool, lines: seq<Line>, truncated: bool)
    requires ValidLimits(l) && n + 1 == m < |candidates| && lines0 == RecentLines(candidates, n, newest, l)
    ensures lines == RecentLines(candidates, m, newest, l)
    ensures fits <==> RecentFits(candidates, m, newest, l, chars, bytes)
    ensures ShortenedIn(Older(candidates, m), l) == ShortenedIn(Older(candidates, n), l) + if truncated then 1 else 0
  {
    var turn := candidates[|candidates| - 2 - n];
    var pair := CutTurn(turn, l.maxMessageChars, l.maxBytes);
    OneOlder(candidates, n, newest, l);
    lines, truncated := pair + lines0, pair != WholeTurn(turn);
    fits := WithinBudgets(lines, chars, bytes);
  }

  method WithinBudgets(lines: seq<Line>, chars: int, bytes: int) returns (fits: bool)
    ensures fits <==> Fits(Component(RECENT, RenderMessages(lines)), chars, bytes)
  {
    var rendered := Component(RECENT, RenderMessages(lines));
    fits := |rendered| <= chars && Bytes(rendered) <= bytes;
  }

  method RecentTier(candidates: seq<Turn>, newest: seq<Line>, l: Limits, chars: int, bytes: int)
    returns (lines: seq<Line>, truncated: bool, n: nat)
    requires ValidLimits(l) && candidates != []
    ensures RecentKept(candidates, n, newest, l, chars, bytes)
    ensures lines == RecentLines(candidates, n, newest, l)
    ensures truncated <==> n + 1 < |candidates| || ShortenedIn(Older(candidates, n), l) > 0
  {
    lines, truncated, n := newest, false, 0;
    assert Older(candidates, 0) == [];
    while n + 1 < |candidates|
      invariant n < |candidates|
      invariant 0 < n ==> RecentFits(candidates, n, newest, l, chars, bytes)
      invariant lines == RecentLines(candidates, n, newest, l)
      invariant truncated <==> ShortenedIn(Older(candidates, n), l) > 0
    {
      var m := n + 1;
      var fits, proposed, cut := TryOlder(candidates, n, m, newest, lines, l, chars, bytes);
      if !fits {
        truncated := true;
        return;
      }
      lines, truncated, n := proposed, truncated || cut, m;
    }
  }

  // ----- assembling the context -----

  /** What the budgets leave for one more part after `parts`, the gap before it included. */
  datatype Room = Room(chars: int, bytes: int)

  function RoomAfter(l: Limits, parts: seq<string>): Room {
    var gap := if parts == [] then 0 else 2;
    Room(l.maxChars - |Join("\n\n", parts)| - gap, l.maxBytes - Bytes(Join("\n\n", parts)) - gap)
  }

  /** The same, with the newest turn and a gap before it held back. */
  function RoomBefore(l: Limits, parts: seq<string>, reserve: string): Room {
    Room(RoomAfter(l, parts).chars - |reserve| - 2, RoomAfter(l, parts).bytes - Bytes(reserve) - 2)
  }

  function Candidates(complete: seq<Turn>, maxTurns: int): (r: seq<Turn>)
    requires 1 <= maxTurns
    ensures |r| <= |complete| && (complete != [] ==> r != [] && r[|r| - 1] == complete[|complete| - 1])
  {
    complete[Max(0, |complete| - maxTurns)..]
  }

  function MessageIds(turns: seq<Turn>): set<int> {
    (set turn | turn in turns :: turn.user.id) + (set turn | turn in turns :: turn.assistant.id)
  }

  predicate OlderFirst(a: Turn, b: Turn) {
    a.user.id <= b.user.id
  }

  /** The relevant turns offered to the relevant tier, oldest first. */
  function Offered(complete: seq<Turn>, relevant: seq<Turn>, l: Limits): seq<Turn>
    requires ValidLimits(l)
  {
    Eligible(Sort(relevant, OlderFirst), MessageIds(Candidates(complete, l.maxTurns)))
  }

  /** The two contents of the newest turn before they are fitted together. */
  function NewestUser(turn: Turn, l: Limits): string
    requires ValidLimits(l)
  {
    Truncated(turn.user.content, l.maxMessageChars, l.maxBytes)
  }

  function NewestAssistant(turn: Turn, l: Limits): string
    requires ValidLimits(l)
  {
    Truncated(turn.assistant.content, l.maxMessageChars, l.maxBytes)
  }

  function Newest(turn: Turn, l: Limits): (string, string)
    requires ValidLimits(l)
  {
    Shrink(OrEllipsis(NewestUser(turn, l)), OrEllipsis(NewestAssistant(turn, l)), l.maxChars, l.maxBytes)
  }

  /** The summary, cut to its own limit and to the room left; an empty rest is no summary. */
  function FittedSummary(summary: string, room: Room, l: Limits): string
    requires ValidLimits(l)
  {
    Truncated(summary, Min(l.summaryMaxChars, Max(0, room.chars - |Component(SUMMARY, "")|)),
              Max(0, room.bytes - Bytes(Component(SUMMARY, ""))))
  }

  function NonEmpty(s: string): Option<string> {
    if s == "" then None else Some(s)
  }

  function SummaryText(summary: Option<string>): string {
    if summary.Some? then summary.value else ""
  }

  /** The summary and the first `taken` offered turns fill the room before the newest turn. */
  ghost predicate FrontAssembled(value: Option<string>, lines: seq<Line>, l: Limits, reserve: string,
                                 summary: string, offered: seq<Turn>, taken: nat)
    requires ValidLimits(l)
  {
    var before := RoomBefore(l, SummaryParts(value), reserve);
    && value == NonEmpty(FittedSummary(summary, RoomBefore(l, [], reserve), l))
    && RelevantTaken(offered, l, Min(before.chars, l.relevantMaxChars + 70), before.bytes, taken)
    && lines == Cut(offered[..taken], l)
  }

  ghost predicate FrontFlagged(value: Option<string>, l: Limits, summary: string, offered: seq<Turn>, taken: nat)
    requires ValidLimits(l) && taken <= |offered|
  {
    SummaryText(value) != summary || taken < |offered| || ShortenedIn(offered[..taken], l) > 0
  }

  /** The last `kept + 1` complete turns fill the room after `parts`. */
  ghost predicate RecentAssembled(lines: seq<Line>, l: Limits, u: string, a: string, parts: seq<string>,
                                  candidates: seq<Turn>, kept: nat)
    requires ValidLimits(l)
  {
    var newest := [Line(USER, u), Line(ASSISTANT, a)];
    && RecentKept(candidates, kept, newest, l, RoomAfter(l, parts).chars, RoomAfter(l, parts).bytes)
    && lines == RecentLines(candidates, kept, newest, l)
  }

  ghost predicate RecentFlagged(candidates: seq<Turn>, l: Limits, kept: nat)
    requires ValidLimits(l) && kept < |candidates|
  {
    kept + 1 < |candidates| || ShortenedIn(Older(candidates, kept), l) > 0
  }

  ghost predicate NewestFlagged(turn: Turn, l: Limits, u: string, a: string)
    requires ValidLimits(l)
  {
    || u != turn.user.content || a != turn.assistant.content || !PairFits(u, a, l.maxChars, l.maxBytes)
    || NewestUser(turn, l) != turn.user.content || NewestAssistant(turn, l) != turn.assistant.content
  }

  function FrontParts(c: Context): seq<string> {
    SummaryParts(c.summary) + LineParts(RELEVANT, c.relevant)
  }

  /** How much of each tier was taken: the fitted contents of the newest turn, the number of
      offered turns, and the number of turns kept before the newest. */
  datatype Fit = Fit(user: string, assistant: string, taken: nat, kept: nat)

  /** What a context is made of, and when its truncation flag is raised. */
  ghost predicate Assembled(c: Context, complete: seq<Turn>, candidates: seq<Turn>, turn: Turn, l: Limits,
                            summary: string, offered: seq<Turn>, fit: Fit)
    requires ValidLimits(l)
  {
    && (fit.user, fit.assistant) == Newest(turn, l)
    && FrontAssembled(c.summary, c.relevant, l, NewestComponent(fit.user, fit.assistant), summary, offered, fit.taken)
    && RecentAssembled(c.recent, l, fit.user, fit.assistant, FrontParts(c), candidates, fit.kept)
    && c.relevantTurns == fit.taken && c.recentTurns == fit.kept + 1
    && (c.truncated <==>
        || |candidates| < |complete| || NewestFlagged(turn, l, fit.user, fit.assistant)
        || FrontFlagged(c.summary, l, summary, offered, fit.taken) || RecentFlagged(candidates, l, fit.kept))
  }

  const EMPTY := Context(None, [], [], 0, 0, 0, 0, false)

  /** Running totals of the joined parts. */
  datatype Used = Used(chars: int, bytes: int)

  ghost predicate Counts(used: Used, parts: seq<string>) {
    used.chars == |Join("\n\n", parts)| && used.bytes == Bytes(Join("\n\n", parts))
  }

  method AddPart(used: Used, parts: seq<string>, part: string) returns (r: Used)
    requires Counts(used, parts)
    ensures Counts(r, parts + [part])
  {
    JoinLength(parts, part);
    var gap := if parts == [] then 0 else 2;
    r := Used(used.chars + gap + |part|, used.bytes + gap + Bytes(part));
  }

  method AvailableBeforeRecent(l: Limits, used: Used, parts: seq<string>, reserve: string) returns (room: Room)
    requires Counts(used, parts)
    ensures room == RoomBefore(l, parts, reserve)
  {
    var separator := if parts == [] then 0 else 2;
    room := Room(l.maxChars - used.chars - separator - (|reserve| + 2),
                 l.maxBytes - used.bytes - separator - (Bytes(reserve) + 2));
  }

  method NewestTier(turn: Turn, l: Limits) returns (u: string, a: string, truncated: bool)
    requires ValidLimits(l)
    ensures (u, a) == Newest(turn, l)
    ensures truncated <==> NewestFlagged(turn, l, u, a)
  {
    var pair := CutTurn(turn, l.maxMessageChars, l.maxBytes);
    var fitted;
    u, a, fitted := FitNewestPair(pair[0].content, pair[1].content, l.maxChars, l.maxBytes);
    truncated := fitted || pair[0].content != turn.user.content || pair[1].content != turn.assistant.content;
  }

  method SummaryTier(summary: string, room: Room, l: Limits) returns (value: Option<string>, truncated: bool)
    requires ValidLimits(l)
    ensures value == NonEmpty(FittedSummary(summary, room, l))
    ensures truncated <==> FittedSummary(summary, room, l) != summary
  {
    value, truncated := None, false;
    if summary != "" {
      var caption := Component(SUMMARY, "");
      var cut := TruncateTextToBudget(summary, Min(l.summaryMaxChars, Max(0, room.chars - |caption|)),
                                      Max(0, room.bytes - Bytes(caption)));
      if cut.value.0 != "" {
        value := Some(cut.value.0);
      }
      truncated := cut.value.1;
    }
  }

  method RoomForRecent(l: Limits, used: Used, parts: seq<string>) returns (room: Room)
    requires Counts(used, parts)
    ensures room == RoomAfter(l, parts)
  {
    var separator := if parts == [] then 0 else 2;
    room := Room(l.maxChars - used.chars - separator, l.maxBytes - used.bytes - separator);
  }

  /** Add the part a tier produced, if it produced one. */
  method AddTier(used0: Used, parts0: seq<string>, heading: string, lines: seq<Line>)
    returns (used: Used, parts: seq<string>)
    requires Counts(used0, parts0)
    ensures parts == parts0 + LineParts(heading, lines) && Counts(used, parts)
  {
    used, parts := used0, parts0;
    if lines != [] {
      var rendered := Component(heading, RenderMessages(lines));
      used := AddPart(used, parts, rendered);
      parts := parts + [rendered];
    }
  }

  method AddSummary(value: Option<string>) returns (used: Used, parts: seq<string>)
    requires value.Some? ==> value.value != ""
    ensures parts == SummaryParts(value) && Counts(used, parts)
  {
    used, parts := Used(0, 0), [];
    if value.Some? {
      var rendered := Component(SUMMARY, value.value);
      used := AddPart(used, parts, rendered);
      parts := [rendered];
    }
  }

  /** The summary and relevant tiers. */
  method AssembleFront(l: Limits, reserve: string, summary: string, turns: seq<Turn>, recentIds: set<int>)
    returns (value: Option<string>, lines: seq<Line>, truncated: bool, used: Used, parts: seq<string>, ghost taken: nat)
    requires ValidLimits(l)
    ensures FrontAssembled(value, lines, l, reserve, summary, Eligible(turns, recentIds), taken)
    ensures truncated <==> FrontFlagged(value, l, summary, Eligible(turns, recentIds), taken)
    ensures parts == SummaryParts(value) + LineParts(RELEVANT, lines) && Counts(used, parts)
  {
    assert Join("\n\n", []) == "";
    var room := AvailableBeforeRecent(l, Used(0, 0), [], reserve);
    var summaryCut;
    value, summaryCut := SummaryTier(summary, room, l);
    used, parts := AddSummary(value);
    var before := AvailableBeforeRecent(l, used, parts, reserve);
    var limit := Min(before.chars, l.relevantMaxChars + 70);
    var relevantCut;
    lines, relevantCut, taken := RelevantTier(turns, recentIds, l, limit, before.bytes);
    used, parts := AddTier(used, parts, RELEVANT, lines);
    truncated := summaryCut || relevantCut;
  }

  /** The recent tier, and the totals of the finished context. */
  method AssembleRecent(l: Limits, u: string, a: string, used0: Used, parts: seq<string>, candidates: seq<Turn>)
    returns (lines: seq<Line>, truncated: bool, used: Used, kept: nat)
    requires ValidLimits(l) && candidates != [] && Counts(used0, parts)
    ensures RecentAssembled(lines, l, u, a, parts, candidates, kept)
    ensures truncated <==> RecentFlagged(candidates, l, kept)
    ensures Counts(used, parts + LineParts(RECENT, lines))
  {
    var room := RoomForRecent(l, used0, parts);
    lines, truncated, kept := RecentTier(candidates, [Line(USER, u), Line(ASSISTANT, a)], l, room.chars, room.bytes);
    var all;
    used, all := AddTier(used0, parts, RECENT, lines);
  }

  method Assemble(messages: seq<Message>, l: Limits, summary: Option<string>, relevant: seq<Turn>)
    returns (r: Result<Context>, ghost fit: Fit)
    ensures r.Failure? <==> !ValidLimits(l)
    ensures r.Success? && CompleteTurns(messages) == [] ==> r.value == EMPTY
    ensures r.Success? ==> r.value.chars == |Render(r.value)| && r.value.bytes == Bytes(Render(r.value))
    ensures r.Success? && CompleteTurns(messages) != [] ==>
              var complete := CompleteTurns(messages);
              Assembled(r.value, complete, Candidates(complete, l.maxTurns), complete[|complete| - 1], l,
                        SummaryText(summary), Offered(complete, relevant, l), fit)
  {
    fit := Fit("", "", 0, 0);
    if !ValidLimits(l) {
      return Failure, fit;
    }
    var complete := PairUp(messages);
    var candidates := Candidates(complete, l.maxTurns);
    if |candidates| == 0 {
      return Success(EMPTY), fit;
    }
    var turn, turns, recentIds := candidates[|candidates| - 1], Sort(relevant, OlderFirst), MessageIds(candidates);
    assert turn == complete[|complete| - 1] && Eligible(turns, recentIds) == Offered(complete, relevant, l);
    var c;
    c, fit := AssembleTurns(complete, candidates, turn, l, SummaryText(summary), turns, recentIds);
    r := Success(c);
  }

  /** The tiers, once there is a complete turn. */
  method AssembleTurns(complete: seq<Turn>, candidates: seq<Turn>, turn: Turn, l: Limits, summary: string,
                       turns: seq<Turn>, recentIds: set<int>)
    returns (c: Context, ghost fit: Fit)
    requires ValidLimits(l) && candidates != []
    ensures c.chars == |Render(c)| && c.bytes == Bytes(Render(c))
    ensures Assembled(c, complete, candidates, turn, l, summary, Eligible(turns, recentIds), fit)
  {
    var u, a, newestCut := NewestTier(turn, l);
    var value, front, frontCut, used, parts;
    ghost var taken;
    value, front, frontCut, used, parts, taken := AssembleFront(l, NewestComponent(u, a), summary, turns, recentIds);
    var recent, recentCut, kept;
    recent, recentCut, used, kept := AssembleRecent(l, u, a, used, parts, candidates);
    c := Context(value, front, recent, |front| / 2, kept + 1, used.chars, used.bytes,
                 |candidates| < |complete| || newestCut || frontCut || recentCut);
    fit := Fit(u, a, taken, kept);
    TwoLinesEach(Eligible(turns, recentIds)[..taken], l);
  }

  lemma TwoLinesEach(turns: seq<Turn>, l: Limits)
    requires ValidLimits(l)
    ensures |Cut(turns, l)| / 2 == |turns|
  {
  }
}
