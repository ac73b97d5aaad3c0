/** Lines, code fences and headings as src/zglab_rag/ingestion/chunking.py reads them. */
module Markdown {
  import opened Text

  // ----- lines: str.splitlines(keepends=True) -----

  predicate IsLineBreak(c: char) {
    || '\n' <= c <= '\r' || '\U{1c}' <= c <= '\U{1e}' || c == '\U{85}' || c == '\U{2028}' || c == '\U{2029}'
  }

  /** Where the line that contains index `i` ends. */
  function LineEnd(text: string, i: nat): (end: nat)
    requires i < |text|
    ensures i < end <= |text|
    decreases |text| - i
  {
    if IsLineBreak(text[i]) then
      if text[i] == '\r' && i + 1 < |text| && text[i + 1] == '\n' then i + 2 else i + 1
    else if i + 1 == |text| then i + 1
    else LineEnd(text, i + 1)
  }

  function SplitLines(text: string): (lines: seq<string>)
    ensures forall line :: line in lines ==> line != ""
    decreases |text|
  {
    if text == "" then []
    else
      var end := LineEnd(text, 0);
      [text[..end]] + SplitLines(text[end..])
  }

  function Concat(lines: seq<string>): string {
    if lines == [] then "" else Concat(lines[..|lines| - 1]) + lines[|lines| - 1]
  }

  lemma {:induction false} ConcatAppend(a: seq<string>, b: seq<string>)
    ensures Concat(a + b) == Concat(a) + Concat(b)
  {
    if b == [] {
      assert a + b == a;
    } else {
      ConcatAppend(a, b[..|b| - 1]);
      assert (a + b)[..|a + b| - 1] == a + b[..|b| - 1];
    }
  }

  lemma {:induction false} SplitLinesLosesNothing(text: string)
    ensures Concat(SplitLines(text)) == text
    decreases |text|
  {
    if text != "" {
      var end := LineEnd(text, 0);
      SplitLinesLosesNothing(text[end..]);
      ConcatAppend([text[..end]], SplitLines(text[end..]));
      assert [text[..end]][..0] == [];
      assert Concat([text[..end]]) == text[..end];
    }
  }

  // ----- fences -----

  /** The length of the run of characters from `chars` that starts at `i`. */
  function Run(line: string, i: nat, chars: set<char>): (n: nat)
    requires i <= |line|
    ensures i + n <= |line|
    ensures forall j :: i <= j < i + n ==> line[j] in chars
    ensures i + n < |line| ==> line[i + n] !in chars
    decreases |line| - i
  {
    if i < |line| && line[i] in chars then 1 + Run(line, i + 1, chars) else 0
  }

  /** A line that matches the fence pattern: at most three blanks, then three or more equal
      marker characters; `bare` says that only white space follows. */
  datatype Marker = NoMarker | Marker(kind: char, length: nat, bare: bool)

  function FenceMarker(line: string): (m: Marker)
    ensures m.Marker? ==> !Blank(line)
  {
    var k := Run(line, 0, {' ', '\t'});
    if k > 3 || k == |line| || line[k] !in {'`', '~'} then NoMarker
    else
      var n := Run(line, k, {line[k]});
      assert !IsSpace(line[k]);
      if n < 3 then NoMarker else Marker(line[k], n, Blank(line[k + n..]))
  }

  datatype Fence = Closed | Open(kind: char, length: nat)

  /** One line's effect on the fence state: an open fence ignores everything but a bare
      marker of its own kind that is at least as long. */
  function NextFence(fence: Fence, line: string): Fence {
    match FenceMarker(line)
    case NoMarker => fence
    case Marker(kind, length, bare) =>
      if fence.Closed? then Open(kind, length)
      else if kind == fence.kind && length >= fence.length && bare then Closed
      else fence
  }

  /** The fence state before line `i`. */
  function FenceBefore(lines: seq<string>, i: nat): Fence
    requires i <= |lines|
  {
    if i == 0 then Closed else NextFence(FenceBefore(lines, i - 1), lines[i - 1])
  }

  predicate Fenced(lines: seq<string>, i: nat)
    requires i < |lines|
  {
    FenceBefore(lines, i).Open? || FenceBefore(lines, i + 1).Open?
  }

  predicate Opens(lines: seq<string>, i: nat)
    requires i < |lines|
  {
    FenceBefore(lines, i).Closed? && FenceBefore(lines, i + 1).Open?
  }

  /** Scanning a document from a line where no fence is open gives the same fences as
      scanning the whole document. */
  lemma {:induction false} RescanFromClosed(lines: seq<string>, c: nat, d: nat, i: nat, p: nat)
    requires p == c + i <= d <= |lines| && FenceBefore(lines, c).Closed?
    ensures FenceBefore(lines[c..d], i) == FenceBefore(lines, p)
  {
    if i > 0 {
      RescanFromClosed(lines, c, d, i - 1, p - 1);
    }
  }

  // ----- fenced blocks, from the markers of the lines alone -----

  /** Lines `first` up to `end`. */
  datatype Block = Block(first: nat, end: nat)

  /** The line closes a block opened by this marker: only white space follows a marker of the
      same kind that is at least as long. */
  predicate Closes(opening: Marker, line: string)
    requires opening.Marker?
  {
    var m := FenceMarker(line);
    m.Marker? && m.kind == opening.kind && m.length >= opening.length && m.bare
  }

  function FirstMarker(lines: seq<string>, i: nat): (r: nat)
    requires i <= |lines|
    ensures i <= r <= |lines| && (r < |lines| ==> FenceMarker(lines[r]).Marker?)
    ensures forall j :: i <= j < r ==> FenceMarker(lines[j]).NoMarker?
    decreases |lines| - i
  {
    if i == |lines| || FenceMarker(lines[i]).Marker? then i else FirstMarker(lines, i + 1)
  }

  function FirstClosing(lines: seq<string>, opening: Marker, i: nat): (r: nat)
    requires i <= |lines| && opening.Marker?
    ensures i <= r <= |lines| && (r < |lines| ==> Closes(opening, lines[r]))
    ensures forall j :: i <= j < r ==> !Closes(opening, lines[j])
    decreases |lines| - i
  {
    if i == |lines| || Closes(opening, lines[i]) then i else FirstClosing(lines, opening, i + 1)
  }

  /** The block that starts with the marker on line `i`: it ends after the first line that closes
      it, or with the text. */
  ghost function BlockAt(lines: seq<string>, i: nat): (b: Block)
    requires i < |lines| && FenceMarker(lines[i]).Marker?
    ensures b.first == i < b.end <= |lines|
  {
    var c := FirstClosing(lines, FenceMarker(lines[i]), i + 1);
    Block(i, if c < |lines| then c + 1 else c)
  }

  /** The blocks from line `from` on, when none is open there. */
  ghost function Blocks(lines: seq<string>, from: nat): seq<Block>
    requires from <= |lines|
    decreases |lines| - from
  {
    var i := FirstMarker(lines, from);
    if i == |lines| then [] else [BlockAt(lines, i)] + Blocks(lines, BlockAt(lines, i).end)
  }

  lemma {:induction false} ClosedUntilMarker(lines: seq<string>, from: nat, p: nat)
    requires from <= p <= |lines| && p <= FirstMarker(lines, from) && FenceBefore(lines, from).Closed?
    ensures FenceBefore(lines, p).Closed?
  {
    if from < p {
      ClosedUntilMarker(lines, from, p - 1);
    }
  }

  lemma ClosesIff(opening: Marker, line: string)
    requires opening.Marker?
    ensures Closes(opening, line) <==> NextFence(Open(opening.kind, opening.length), line).Closed?
    ensures !Closes(opening, line) ==>
      NextFence(Open(opening.kind, opening.length), line) == Open(opening.kind, opening.length)
  {
  }

  /** From its opening line on a block is open until the first line that closes it. */
  lemma {:induction false} OpenUntilClosing(lines: seq<string>, i: nat, p: nat)
    requires i < |lines| && FenceMarker(lines[i]).Marker? && FenceBefore(lines, i).Closed?
    requires i < p <= FirstClosing(lines, FenceMarker(lines[i]), i + 1)
    ensures FenceBefore(lines, p) == Open(FenceMarker(lines[i]).kind, FenceMarker(lines[i]).length)
  {
    if i + 1 < p {
      OpenUntilClosing(lines, i, p - 1);
      ClosesIff(FenceMarker(lines[i]), lines[p - 1]);
    }
  }

  lemma BlockIsFenced(lines: seq<string>, i: nat, p: nat)
    requires i < |lines| && FenceMarker(lines[i]).Marker? && FenceBefore(lines, i).Closed?
    requires i <= p < BlockAt(lines, i).end
    ensures Fenced(lines, p)
    ensures BlockAt(lines, i).end < |lines| ==> FenceBefore(lines, BlockAt(lines, i).end).Closed?
  {
    var m := FenceMarker(lines[i]);
    var c := FirstClosing(lines, m, i + 1);
    OpenUntilClosing(lines, i, if p == i then i + 1 else p);
    if c < |lines| {
      OpenUntilClosing(lines, i, c);
      ClosesIff(m, lines[c]);
    }
  }

  /** A line lies in one of the blocks. */
  ghost predicate InBlock(blocks: seq<Block>, p: nat) {
    exists b :: b in blocks && b.first <= p < b.end
  }

  lemma {:induction false} BlocksStartLater(lines: seq<string>, from: nat)
    requires from <= |lines|
    ensures forall b :: b in Blocks(lines, from) ==> from <= b.first < b.end <= |lines|
    decreases |lines| - from
  {
    var i := FirstMarker(lines, from);
    if i < |lines| {
      BlocksStartLater(lines, BlockAt(lines, i).end);
    }
  }

  /** The lines a scan takes for fenced are those of the blocks. */
  lemma {:induction false} FencedIffInBlock(lines: seq<string>, from: nat, p: nat)
    requires from <= p < |lines| && FenceBefore(lines, from).Closed?
    ensures Fenced(lines, p) <==> InBlock(Blocks(lines, from), p)
    decreases |lines| - from
  {
    var i := FirstMarker(lines, from);
    if p < i {
      ClosedUntilMarker(lines, from, p);
      BlocksStartLater(lines, from);
      UnmarkedStaysClosed(lines, p);
      InLaterBlock(lines, i, p);
    } else {
      ClosedUntilMarker(lines, from, i);
      var b, rest := BlockAt(lines, i), Blocks(lines, BlockAt(lines, i).end);
      assert Blocks(lines, from) == [b] + rest;
      if p < b.end {
        BlockIsFenced(lines, i, p);
        assert b in [b] + rest;
      } else {
        BlockIsFenced(lines, i, i);
        FencedIffInBlock(lines, b.end, p);
        InBlockOfMore(b, rest, p);
      }
    }
  }

  lemma UnmarkedStaysClosed(lines: seq<string>, p: nat)
    requires p < |lines| && FenceBefore(lines, p).Closed? && FenceMarker(lines[p]).NoMarker?
    ensures !Fenced(lines, p)
  {
    assert FenceBefore(lines, p + 1) == NextFence(FenceBefore(lines, p), lines[p]);
  }

  lemma InBlockOfMore(b: Block, rest: seq<Block>, p: nat)
    requires b.end <= p
    ensures InBlock([b] + rest, p) <==> InBlock(rest, p)
  {
    if InBlock(rest, p) {
      var x :| x in rest && x.first <= p < x.end;
      assert x in [b] + rest;
    }
  }

  lemma InLaterBlock(lines: seq<string>, from: nat, p: nat)
    requires p < from <= |lines| && FirstMarker(lines, from) == from
    ensures !InBlock(Blocks(lines, from), p)
  {
    BlocksStartLater(lines, from);
  }

  // ----- headings -----

  /** The level of a line that matches the heading pattern, else 0. */
  function HeadingLevel(line: string): (level: nat)
    ensures level <= 6
  {
    var k := Run(line, 0, {' ', '\t'});
    var n := Run(line, k, {'#'});
    if k <= 3 && 1 <= n <= 6 && k + n < |line| && line[k + n] in {' ', '\t'} then n else 0
  }

  /** Line `i` starts a section: a heading outside every fence. */
  predicate Heads(lines: seq<string>, i: nat)
    requires i < |lines|
  {
    FenceBefore(lines, i).Closed? && FenceMarker(lines[i]).NoMarker? && HeadingLevel(lines[i]) > 0
  }

  // ----- the two line patterns -----

  function Repeat(c: char, n: nat): (s: string)
    ensures |s| == n && forall i :: 0 <= i < n ==> s[i] == c
  {
    seq(n, i => c)
  }

  /** At most three blanks. */
  predicate IsIndentation(u: string) {
    |u| <= 3 && forall i :: 0 <= i < |u| ==> u[i] in {' ', '\t'}
  }

  /** An indentation, three or more equal marker characters, and a rest that starts otherwise. */
  predicate FenceForm(line: string, u: string, c: char, n: nat, rest: string) {
    && line == u + Repeat(c, n) + rest && IsIndentation(u)
    && c in {'`', '~'} && n >= 3 && (rest != "" ==> rest[0] != c)
  }

  /** An indentation, up to six number signs, and a rest that starts with a blank. */
  predicate HeadingForm(line: string, u: string, n: nat, rest: string) {
    && line == u + Repeat('#', n) + rest && IsIndentation(u)
    && 1 <= n <= 6 && rest != "" && rest[0] in {' ', '\t'}
  }

  lemma {:induction false} RunIs(line: string, i: nat, chars: set<char>, n: nat)
    requires i + n <= |line| && (forall j :: i <= j < i + n ==> line[j] in chars)
    requires i + n < |line| ==> line[i + n] !in chars
    ensures Run(line, i, chars) == n
    decreases n
  {
    if 0 < n {
      RunIs(line, i + 1, chars, n - 1);
    }
  }

  lemma PartsOfForm(line: string, u: string, s: string, rest: string, n: nat)
    requires line == u + s + rest && |s| == n
    ensures forall j :: 0 <= j < |u| ==> line[j] == u[j]
    ensures forall j :: |u| <= j < |u| + n ==> line[j] == s[j - |u|]
    ensures rest != "" ==> line[|u| + n] == rest[0]
    ensures line[|u| + n..] == rest
  {
  }

  lemma RunsOfParts(line: string, k: nat, c: char, n: nat)
    requires k + n <= |line| && 0 < n && c !in {' ', '\t'}
    requires forall j :: 0 <= j < k ==> line[j] in {' ', '\t'}
    requires forall j :: k <= j < k + n ==> line[j] == c
    requires k + n < |line| ==> line[k + n] != c
    ensures Run(line, 0, {' ', '\t'}) == k && Run(line, k, {c}) == n
  {
    RunIs(line, 0, {' ', '\t'}, k);
    RunIs(line, k, {c}, n);
  }

  /** The two runs of a line that starts with an indentation and equal characters. */
  lemma RunsOfForm(line: string, u: string, c: char, n: nat, rest: string)
    requires line == u + Repeat(c, n) + rest && IsIndentation(u) && 0 < n
    requires c !in {' ', '\t'} && (rest != "" ==> rest[0] != c)
    ensures Run(line, 0, {' ', '\t'}) == |u| < |line| && line[|u|] == c
    ensures Run(line, |u|, {c}) == n && line[|u| + n..] == rest
  {
    PartsOfForm(line, u, Repeat(c, n), rest, n);
    RunsOfParts(line, |u|, c, n);
  }

  lemma FormOfRuns(line: string, u: string, c: char, n: nat, rest: string)
    requires |u| + n <= |line| && u == line[..|u|] && rest == line[|u| + n..]
    requires forall j :: |u| <= j < |u| + n ==> line[j] == c
    ensures line == u + Repeat(c, n) + rest
  {
  }

  lemma FenceHasForm(line: string, m: Marker) returns (u: string, rest: string)
    requires m == FenceMarker(line) && m.Marker?
    ensures FenceForm(line, u, m.kind, m.length, rest) && (m.bare <==> Blank(rest))
  {
    var k := Run(line, 0, {' ', '\t'});
    u, rest := line[..k], line[k + m.length..];
    FormOfRuns(line, u, m.kind, m.length, rest);
  }

  lemma FormHasFence(line: string, u: string, c: char, n: nat, rest: string)
    requires FenceForm(line, u, c, n, rest)
    ensures FenceMarker(line) == Marker(c, n, Blank(rest))
  {
    RunsOfForm(line, u, c, n, rest);
  }

  /** A line has a fence marker exactly if it has that form. */
  lemma FenceMarkerIff(line: string, c: char, n: nat, bare: bool)
    ensures FenceMarker(line) == Marker(c, n, bare)
        <==> exists u, rest :: FenceForm(line, u, c, n, rest) && (bare <==> Blank(rest))
  {
    if FenceMarker(line) == Marker(c, n, bare) {
      var u, rest := FenceHasForm(line, Marker(c, n, bare));
    }
    forall u, rest | FenceForm(line, u, c, n, rest) && (bare <==> Blank(rest))
      ensures FenceMarker(line) == Marker(c, n, bare)
    {
      FormHasFence(line, u, c, n, rest);
    }
  }

  /** A line has a heading level exactly if it has that form. */
  lemma HeadingLevelIff(line: string, n: nat)
    requires 0 < n
    ensures HeadingLevel(line) == n <==> exists u, rest :: HeadingForm(line, u, n, rest)
  {
    if HeadingLevel(line) == n {
      var k := Run(line, 0, {' ', '\t'});
      FormOfRuns(line, line[..k], '#', n, line[k + n..]);
      assert HeadingForm(line, line[..k], n, line[k + n..]);
    }
    forall u, rest | HeadingForm(line, u, n, rest) ensures HeadingLevel(line) == n {
      RunsOfForm(line, u, '#', n, rest);
    }
  }

  ghost predicate MatchesHeading(line: string) {
    exists u, n, rest :: HeadingForm(line, u, n, rest)
  }

  lemma MatchesHeadingIff(line: string)
    ensures MatchesHeading(line) <==> HeadingLevel(line) > 0
  {
    if HeadingLevel(line) > 0 {
      HeadingLevelIff(line, HeadingLevel(line));
      var u, rest :| HeadingForm(line, u, HeadingLevel(line), rest);
    }
    forall u, n, rest | HeadingForm(line, u, n, rest) ensures HeadingLevel(line) == n {
      HeadingLevelIff(line, n);
    }
  }

  /** A line starts a section exactly when it lies in no block and matches the heading pattern. */
  lemma HeadsIff(lines: seq<string>, i: nat)
    requires i < |lines|
    ensures Heads(lines, i) <==> !InBlock(Blocks(lines, 0), i) && MatchesHeading(lines[i])
  {
    FencedIffInBlock(lines, 0, i);
    MatchesHeadingIff(lines[i]);
    if FenceBefore(lines, i).Closed? {
      assert FenceBefore(lines, i + 1) == NextFence(FenceBefore(lines, i), lines[i]);
    }
  }
}
