/** Splitting an oversized section: `_split_oversized` and its helpers in
    src/zglab_rag/ingestion/chunking.py. */
module Splitter {
  import opened Numbers
  import opened Text
  import opened Markdown
  import Seqs

  datatype Config = Config(targetSize: nat, maxSize: nat, overlap: nat)

  predicate ValidConfig(config: Config) {
    0 < config.targetSize <= config.maxSize && config.overlap < config.targetSize
  }

  datatype Span = Span(start: nat, end: nat)

  // ----- fenced spans -----

  ghost function Offset(lines: seq<string>, i: nat): nat
    requires i <= |lines|
  {
    |Concat(lines[..i])|
  }

  lemma OffsetNext(lines: seq<string>, i: nat)
    requires i < |lines|
    ensures Offset(lines, i + 1) == Offset(lines, i) + |lines[i]|
    ensures Concat(lines[..i + 1]) == Concat(lines[..i]) + lines[i]
  {
    Seqs.TakeNext(lines, i);
    Seqs.DropLast(lines[..i], lines[i]);
  }

  lemma {:induction false} OffsetMonotone(lines: seq<string>, i: nat, j: nat)
    requires i <= j <= |lines|
    ensures Offset(lines, i) <= Offset(lines, j)
    decreases j - i
  {
    if i < j {
      OffsetNext(lines, i);
      OffsetMonotone(lines, i + 1, j);
    }
  }

  /** The offset of the last line before `i` that opened a fence. */
  ghost function OpenedAt(lines: seq<string>, i: nat): nat
    requires i <= |lines|
  {
    if i == 0 then 0 else if Opens(lines, i - 1) then Offset(lines, i - 1) else OpenedAt(lines, i - 1)
  }

  ghost function ClosedSpans(lines: seq<string>, i: nat): seq<Span>
    requires i <= |lines|
  {
    if i == 0 then []
    else if FenceBefore(lines, i - 1).Open? && FenceBefore(lines, i).Closed? then
      ClosedSpans(lines, i - 1) + [Span(OpenedAt(lines, i - 1), Offset(lines, i))]
    else ClosedSpans(lines, i - 1)
  }

  /** The fenced blocks of the first `i` lines; a block still open reaches to the end. */
  ghost function Spans(lines: seq<string>, i: nat): seq<Span>
    requires i <= |lines|
  {
    ClosedSpans(lines, i)
    + if FenceBefore(lines, i).Open? then [Span(OpenedAt(lines, i), Offset(lines, i))] else []
  }

  /** The variables of the scan before line `i`. */
  ghost predicate ScannedTo(lines: seq<string>, i: nat, offset: nat, fence: Fence, fenceStart: nat, spans: seq<Span>) {
    && i <= |lines| && offset == Offset(lines, i) && fence == FenceBefore(lines, i)
    && (fence.Open? ==> fenceStart == OpenedAt(lines, i)) && spans == ClosedSpans(lines, i)
  }

  /** What one line does to them. */
  ghost predicate LineScanned(line: string, offset: nat, fence0: Fence, fenceStart0: nat, spans0: seq<Span>,
                              fence: Fence, fenceStart: nat, spans: seq<Span>) {
    && fence == NextFence(fence0, line)
    && (fence.Open? ==> fenceStart == if fence0.Open? then fenceStart0 else offset)
    && spans == if fence0.Open? && fence.Closed? then spans0 + [Span(fenceStart0, offset + |line|)] else spans0
  }

  lemma ScanNext(lines: seq<string>, i: nat, m: nat, offset: nat, end: nat, fence0: Fence, fenceStart0: nat,
                 spans0: seq<Span>, fence: Fence, fenceStart: nat, spans: seq<Span>)
    requires ScannedTo(lines, i, offset, fence0, fenceStart0, spans0) && i < |lines| && m == i + 1
    requires end == offset + |lines[i]|
    requires LineScanned(lines[i], offset, fence0, fenceStart0, spans0, fence, fenceStart, spans)
    ensures ScannedTo(lines, m, end, fence, fenceStart, spans)
  {
    OffsetNext(lines, i);
  }

  method ScanLine(line: string, offset: nat, fence0: Fence, fenceStart0: nat, spans0: seq<Span>)
    returns (fence: Fence, fenceStart: nat, spans: seq<Span>)
    ensures LineScanned(line, offset, fence0, fenceStart0, spans0, fence, fenceStart, spans)
  {
    fence, fenceStart, spans := fence0, fenceStart0, spans0;
    var marker := FenceMarker(line);
    if fence.Closed? && marker.Marker? {
      fence := Open(marker.kind, marker.length);
      fenceStart := offset;
    } else if fence.Open? && marker.Marker?
              && marker.kind == fence.kind && marker.length >= fence.length && marker.bare {
      spans := spans + [Span(fenceStart, offset + |line|)];
      fence := Closed;
    }
  }

  method ScanLines(lines: seq<string>)
    returns (offset: nat, fence: Fence, fenceStart: nat, spans: seq<Span>)
    ensures ScannedTo(lines, |lines|, offset, fence, fenceStart, spans)
  {
    offset, fence, fenceStart, spans := 0, Closed, 0, [];
    for i := 0 to |lines|
      invariant ScannedTo(lines, i, offset, fence, fenceStart, spans)
    {
      var fence1, fenceStart1, spans1 := ScanLine(lines[i], offset, fence, fenceStart, spans);
      var end := offset + |lines[i]|;
      ScanNext(lines, i, i + 1, offset, end, fence, fenceStart, spans, fence1, fenceStart1, spans1);
      offset, fence, fenceStart, spans := end, fence1, fenceStart1, spans1;
    }
  }

  /** The stretches of text that some blocks take. */
  ghost function BlockSpans(lines: seq<string>, blocks: seq<Block>): seq<Span>
    requires forall b :: b in blocks ==> b.first <= b.end <= |lines|
  {
    seq(|blocks|, i requires 0 <= i < |blocks| => Span(Offset(lines, blocks[i].first), Offset(lines, blocks[i].end)))
  }

  lemma {:induction false} NothingClosedUntilMarker(lines: seq<string>, from: nat, p: nat)
    requires from <= p <= |lines| && p <= FirstMarker(lines, from) && FenceBefore(lines, from).Closed?
    ensures ClosedSpans(lines, p) == ClosedSpans(lines, from)
  {
    if from < p {
      NothingClosedUntilMarker(lines, from, p - 1);
      ClosedUntilMarker(lines, from, p - 1);
    }
  }

  lemma {:induction false} NothingClosedUntilClosing(lines: seq<string>, i: nat, p: nat)
    requires i < |lines| && FenceMarker(lines[i]).Marker? && FenceBefore(lines, i).Closed?
    requires i < p <= FirstClosing(lines, FenceMarker(lines[i]), i + 1)
    ensures ClosedSpans(lines, p) == ClosedSpans(lines, i) && OpenedAt(lines, p) == Offset(lines, i)
  {
    var q := p - 1;
    if i < q {
      NothingClosedUntilClosing(lines, i, q);
      OpenUntilClosing(lines, i, q);
    }
    OpenUntilClosing(lines, i, p);
  }

  /** The scan's spans at the end of a block. */
  lemma SpansAfterBlock(lines: seq<string>, i: nat, b: Block)
    requires i < |lines| && FenceMarker(lines[i]).Marker? && FenceBefore(lines, i).Closed? && b == BlockAt(lines, i)
    ensures Spans(lines, b.end) == ClosedSpans(lines, i) + [Span(Offset(lines, i), Offset(lines, b.end))]
    ensures b.end < |lines| ==> FenceBefore(lines, b.end).Closed?
  {
    var m := FenceMarker(lines[i]);
    var c := FirstClosing(lines, m, i + 1);
    NothingClosedUntilClosing(lines, i, c);
    OpenUntilClosing(lines, i, c);
    if c < |lines| {
      ClosesIff(m, lines[c]);
      SpansAtClosing(lines, c, b.end);
    }
  }

  lemma SpansAtClosing(lines: seq<string>, c: nat, d: nat)
    requires c < |lines| && d == c + 1 && FenceBefore(lines, c).Open?
    requires NextFence(FenceBefore(lines, c), lines[c]).Closed?
    ensures FenceBefore(lines, d).Closed?
    ensures Spans(lines, d) == ClosedSpans(lines, c) + [Span(OpenedAt(lines, c), Offset(lines, d))]
  {
    Seqs.AppendEmpty(ClosedSpans(lines, d));
  }

  /** The scan finds the blocks: from a line outside every block on, those that start there. */
  lemma {:induction false} SpansAreBlocks(lines: seq<string>, from: nat)
    requires from <= |lines| && FenceBefore(lines, from).Closed?
    ensures forall b :: b in Blocks(lines, from) ==> b.first <= b.end <= |lines|
    ensures Spans(lines, |lines|) == ClosedSpans(lines, from) + BlockSpans(lines, Blocks(lines, from))
    decreases |lines| - from
  {
    var i := FirstMarker(lines, from);
    BlocksStartLater(lines, from);
    NothingClosedUntilMarker(lines, from, i);
    ClosedUntilMarker(lines, from, i);
    if i < |lines| {
      var b := BlockAt(lines, i);
      SpansAfterBlock(lines, i, b);
      if b.end < |lines| || FenceBefore(lines, b.end).Closed? {
        SpansAreBlocks(lines, b.end);
        Seqs.AppendEmpty(ClosedSpans(lines, b.end));
        BlockSpansNext(lines, b, Blocks(lines, b.end), ClosedSpans(lines, from));
      } else {
        BlockSpansNext(lines, b, [], ClosedSpans(lines, from));
      }
    }
  }

  lemma BlockSpansNext(lines: seq<string>, b: Block, rest: seq<Block>, before: seq<Span>)
    requires b.first <= b.end <= |lines| && forall x :: x in rest ==> x.first <= x.end <= |lines|
    ensures var f := Span(Offset(lines, b.first), Offset(lines, b.end));
            && BlockSpans(lines, [b] + rest) == [f] + BlockSpans(lines, rest)
            && before + [f] + BlockSpans(lines, rest) == before + ([f] + BlockSpans(lines, rest))
  {
  }

  method FencedSpans(text: string) returns (spans: seq<Span>)
    ensures var lines := SplitLines(text); spans == Spans(lines, |lines|)
    ensures var lines := SplitLines(text);
            && (forall b :: b in Blocks(lines, 0) ==> b.first <= b.end <= |lines|)
            && spans == BlockSpans(lines, Blocks(lines, 0))
  {
    var lines := SplitLines(text);
    var offset, fence, fenceStart;
    offset, fence, fenceStart, spans := ScanLines(lines);
    if fence.Open? {
      SplitLinesLosesNothing(text);
      Seqs.TakeAll(lines);
      spans := spans + [Span(fenceStart, |text|)];
    }
    SpansAreBlocks(lines, 0);
  }

  /** Spans are non-empty, in text order and disjoint. */
  ghost predicate Ordered(spans: seq<Span>, n: nat) {
    && (forall f :: f in spans ==> f.start < f.end <= n)
    && (forall i, j :: 0 <= i < j < |spans| ==> spans[i].end <= spans[j].start)
  }

  ghost predicate Marked(text: string, spans: seq<Span>) {
    forall f :: f in spans ==> f.start <= f.end <= |text| && !Blank(text[f.start..f.end])
  }

  lemma OrderedAppend(spans: seq<Span>, f: Span, n: nat)
    requires Ordered(spans, f.start) && f.start < f.end <= n
    ensures Ordered(spans + [f], n)
  {
  }

  lemma OrderedFurther(spans: seq<Span>, m: nat, n: nat)
    requires Ordered(spans, m) && m <= n
    ensures Ordered(spans, n)
  {
  }

  /** Blocks already closed end before the open one starts. */
  lemma {:induction false} ClosedSpansAreOrdered(lines: seq<string>, i: nat)
    requires i <= |lines| && forall line :: line in lines ==> line != ""
    ensures Ordered(ClosedSpans(lines, i), Offset(lines, i))
    ensures FenceBefore(lines, i).Open? ==>
      Ordered(ClosedSpans(lines, i), OpenedAt(lines, i)) && OpenedAt(lines, i) < Offset(lines, i)
  {
    if i > 0 {
      var j := i - 1;
      var closed := ClosedSpans(lines, j);
      ClosedSpansAreOrdered(lines, j);
      OffsetNext(lines, j);
      assert lines[j] in lines;
      OrderedFurther(closed, Offset(lines, j), Offset(lines, i));
      if FenceBefore(lines, j).Open? {
        OrderedAppend(closed, Span(OpenedAt(lines, j), Offset(lines, i)), Offset(lines, i));
      }
    }
  }

  lemma SpansAreOrdered(lines: seq<string>, i: nat)
    requires i <= |lines| && forall line :: line in lines ==> line != ""
    ensures Ordered(Spans(lines, i), Offset(lines, i))
    ensures Ordered(ClosedSpans(lines, i), Offset(lines, i))
  {
    ClosedSpansAreOrdered(lines, i);
    if FenceBefore(lines, i).Open? {
      OrderedAppend(ClosedSpans(lines, i), Span(OpenedAt(lines, i), Offset(lines, i)), Offset(lines, i));
    } else {
      Seqs.AppendEmpty(ClosedSpans(lines, i));
    }
  }

  lemma BlankPart(text: string, a: nat, b: nat, c: nat, d: nat)
    requires a <= b <= c <= d <= |text| && Blank(text[a..d])
    ensures Blank(text[b..c])
  {
    forall i | 0 <= i < c - b ensures IsSpace(text[b..c][i]) {
      assert text[b..c][i] == text[a..d][b - a + i];
    }
  }

  lemma MarkedExtends(text: string, more: string, spans: seq<Span>)
    requires Marked(text, spans)
    ensures Marked(text + more, spans)
  {
    forall f | f in spans ensures !Blank((text + more)[f.start..f.end]) {
      assert (text + more)[f.start..f.end] == text[f.start..f.end];
    }
  }

  /** Reading one more line adds a block, lengthens the open one, or changes nothing. */
  lemma SpansNext(lines: seq<string>, i: nat, m: nat)
    requires i < |lines| && m == i + 1
    ensures Spans(lines, m) ==
              if FenceBefore(lines, i).Open? then ClosedSpans(lines, i) + [Span(OpenedAt(lines, i), Offset(lines, m))]
              else if Opens(lines, i) then ClosedSpans(lines, i) + [Span(Offset(lines, i), Offset(lines, m))]
              else ClosedSpans(lines, i)
    ensures Spans(lines, i) ==
              if FenceBefore(lines, i).Open? then ClosedSpans(lines, i) + [Span(OpenedAt(lines, i), Offset(lines, i))]
              else ClosedSpans(lines, i)
  {
  }

  lemma NotBlankWider(text: string, a: nat, b: nat, c: nat)
    requires a <= b <= c <= |text| && !Blank(text[a..b])
    ensures !Blank(text[a..c])
  {
    if Blank(text[a..c]) {
      BlankPart(text, a, a, b, c);
    }
  }

  lemma OpeningLineIsMarked(lines: seq<string>, i: nat)
    requires i < |lines| && Opens(lines, i)
    ensures var text := Concat(lines[..i + 1]);
            Offset(lines, i) <= Offset(lines, i + 1) <= |text| && !Blank(text[Offset(lines, i)..Offset(lines, i + 1)])
  {
    OffsetNext(lines, i);
    var text := Concat(lines[..i + 1]);
    assert text[Offset(lines, i)..Offset(lines, i + 1)] == lines[i];
  }

  lemma MarkedAppend(text: string, spans: seq<Span>, f: Span)
    requires Marked(text, spans) && f.start <= f.end <= |text| && !Blank(text[f.start..f.end])
    ensures Marked(text, spans + [f])
  {
  }

  /** Every span holds a fence marker, which is not white space. */
  lemma {:induction false} SpansAreMarked(lines: seq<string>, i: nat)
    requires i <= |lines| && forall line :: line in lines ==> line != ""
    ensures Marked(Concat(lines[..i]), Spans(lines, i))
  {
    if i > 0 {
      var j := i - 1;
      SpansAreMarked(lines, j);
      SpansNext(lines, j, j + 1);
      OffsetNext(lines, j);
      var before, text, closed := Concat(lines[..j]), Concat(lines[..i]), ClosedSpans(lines, j);
      assert forall f :: f in closed ==> f in Spans(lines, j);
      MarkedExtends(before, lines[j], closed);
      if FenceBefore(lines, j).Open? {
        var g, f := Span(OpenedAt(lines, j), Offset(lines, j)), Span(OpenedAt(lines, j), Offset(lines, i));
        assert g in Spans(lines, j);
        OpenBlockStaysMarked(before, lines[j], g, f);
        MarkedAppend(text, closed, f);
      } else if Opens(lines, j) {
        OpeningLineIsMarked(lines, j);
        MarkedAppend(text, closed, Span(Offset(lines, j), Offset(lines, i)));
      }
    }
  }

  lemma OpenBlockStaysMarked(before: string, line: string, g: Span, f: Span)
    requires g.start <= g.end <= |before| && !Blank(before[g.start..g.end])
    requires f.start == g.start && f.end == |before| + |line|
    ensures !Blank((before + line)[f.start..f.end])
  {
    assert (before + line)[g.start..g.end] == before[g.start..g.end];
    NotBlankWider(before + line, g.start, g.end, f.end);
  }

  ghost predicate Inside(lines: seq<string>, k: nat, f: Span)
    requires k < |lines|
  {
    f.start <= Offset(lines, k) && Offset(lines, k + 1) <= f.end
  }

  ghost predicate InSomeSpan(lines: seq<string>, k: nat, spans: seq<Span>)
    requires k < |lines|
  {
    exists f :: f in spans && Inside(lines, k, f)
  }

  lemma InSpansAppend(lines: seq<string>, k: nat, spans: seq<Span>, f: Span)
    requires k < |lines|
    ensures InSomeSpan(lines, k, spans + [f]) <==> InSomeSpan(lines, k, spans) || Inside(lines, k, f)
  {
    if g :| g in spans && Inside(lines, k, g) {
      assert g in spans + [f];
    }
    assert f in spans + [f];
  }

  lemma NotInEarlierSpans(lines: seq<string>, k: nat, spans: seq<Span>)
    requires k < |lines| && lines[k] != "" && Ordered(spans, Offset(lines, k))
    ensures !InSomeSpan(lines, k, spans)
  {
    OffsetNext(lines, k);
  }

  lemma SameInside(lines: seq<string>, k: nat, spans: seq<Span>, f: Span, g: Span)
    requires k < |lines| && (Inside(lines, k, f) <==> Inside(lines, k, g))
    ensures InSomeSpan(lines, k, spans + [f]) <==> InSomeSpan(lines, k, spans + [g])
  {
    InSpansAppend(lines, k, spans, f);
    InSpansAppend(lines, k, spans, g);
  }

  /** Whether line `k` is inside does not depend on where a span ends beyond it. */
  lemma InsideEitherWay(lines: seq<string>, j: nat, m: nat, k: nat, start: nat)
    requires k < j < |lines| && m == j + 1
    ensures Inside(lines, k, Span(start, Offset(lines, m))) <==> Inside(lines, k, Span(start, Offset(lines, j)))
    ensures lines[k] != "" ==> !Inside(lines, k, Span(Offset(lines, j), Offset(lines, m)))
  {
    OffsetNext(lines, j);
    OffsetNext(lines, k);
    OffsetMonotone(lines, k + 1, j);
  }

  lemma EarlierLineUnaffected(lines: seq<string>, j: nat, m: nat, k: nat)
    requires k < j < |lines| && m == j + 1 && lines[k] != ""
    ensures InSomeSpan(lines, k, Spans(lines, m)) <==> InSomeSpan(lines, k, Spans(lines, j))
  {
    var closed := ClosedSpans(lines, j);
    SpansNext(lines, j, m);
    if FenceBefore(lines, j).Open? {
      InsideEitherWay(lines, j, m, k, OpenedAt(lines, j));
      SameInside(lines, k, closed, Span(OpenedAt(lines, j), Offset(lines, m)),
                 Span(OpenedAt(lines, j), Offset(lines, j)));
    } else if Opens(lines, j) {
      InsideEitherWay(lines, j, m, k, Offset(lines, j));
      InSpansAppend(lines, k, closed, Span(Offset(lines, j), Offset(lines, m)));
    }
  }

  lemma LastLineCovered(lines: seq<string>, j: nat, m: nat)
    requires j < |lines| && m == j + 1 && forall line :: line in lines ==> line != ""
    ensures Fenced(lines, j) <==> InSomeSpan(lines, j, Spans(lines, m))
  {
    var closed := ClosedSpans(lines, j);
    SpansNext(lines, j, m);
    OffsetNext(lines, j);
    SpansAreOrdered(lines, j);
    assert lines[j] in lines;
    NotInEarlierSpans(lines, j, closed);
    if FenceBefore(lines, j).Open? {
      InSpansAppend(lines, j, closed, Span(OpenedAt(lines, j), Offset(lines, m)));
    } else if Opens(lines, j) {
      InSpansAppend(lines, j, closed, Span(Offset(lines, j), Offset(lines, m)));
    }
  }

  /** A line lies in some span exactly when the fence state says it is fenced. */
  lemma {:induction false} SpansCoverFencedLines(lines: seq<string>, i: nat, k: nat)
    requires k < i <= |lines| && forall line :: line in lines ==> line != ""
    ensures Fenced(lines, k) <==> InSomeSpan(lines, k, Spans(lines, i))
  {
    var j := i - 1;
    if k < j {
      assert lines[k] in lines;
      SpansCoverFencedLines(lines, j, k);
      EarlierLineUnaffected(lines, j, i, k);
    } else {
      LastLineCovered(lines, k, i);
    }
  }

  // ----- the cut nearest to the ideal length -----

  const SEPARATORS: seq<string> :=
    ["\n\n", "\n", "\U{3002}", "\U{ff01}", "\U{ff1f}", ". ", "! ", "? ", "\U{ff1b}", "; ", " "]

  function Distance(a: int, b: int): nat {
    if a <= b then b - a else a - b
  }

  /** The stretch of text in which `_boundary` looks for a separator. */
  datatype Window = Window(text: string, lower: nat, ideal: nat, hard: nat) {
    /** The separator occurs at `p` between `lower` and `ideal`, or between `ideal` and `hard`. */
    predicate Candidate(separator: string, p: int) {
      && MatchAt(text, separator, p)
      && ((lower <= p && p + |separator| <= ideal + 1) || (ideal <= p && p + |separator| <= hard + 1))
    }

    ghost predicate NoCandidate(separator: string) {
      forall p :: !Candidate(separator, p)
    }

    /** `p` is the occurrence nearest to `ideal`, the earlier one on a tie. */
    ghost predicate Nearest(separator: string, p: int) {
      && Candidate(separator, p)
      && forall q :: Candidate(separator, q) ==>
           Distance(p, ideal) < Distance(q, ideal) || (Distance(p, ideal) == Distance(q, ideal) && p <= q)
    }

    /** The cut follows the nearest occurrence of the first separator that occurs at all. */
    ghost predicate CutAfter(k: nat, end: int)
      requires k < |SEPARATORS|
    {
      && (forall j :: 0 <= j < k ==> NoCandidate(SEPARATORS[j]))
      && exists p :: Nearest(SEPARATORS[k], p) && end == Min(p + |SEPARATORS[k]|, hard)
    }

    ghost predicate Cut(end: int) {
      || (end == hard && forall j :: 0 <= j < |SEPARATORS| ==> NoCandidate(SEPARATORS[j]))
      || exists k :: 0 <= k < |SEPARATORS| && CutAfter(k, end)
    }
  }

  function WindowAt(text: string, start: nat, ideal: nat, hard: nat): (w: Window)
    requires start < ideal <= hard
    ensures start < w.lower <= ideal
  {
    Window(text, Min(ideal, start + Max(1, (ideal - start) / 2)), ideal, hard)
  }

  /** The nearer of the last occurrence before the ideal length and the first one after it. */
  lemma NearestFound(w: Window, separator: string, before: int, after: int, position: int)
    requires separator != ""
    requires 0 <= before ==>
      MatchAt(w.text, separator, before) && w.lower <= before && before + |separator| <= w.ideal + 1
    requires forall p :: before < p && w.lower <= p && p + |separator| <= w.ideal + 1 ==> !MatchAt(w.text, separator, p)
    requires 0 <= after ==> MatchAt(w.text, separator, after) && w.ideal <= after && after + |separator| <= w.hard + 1
    requires forall p :: (after < 0 || p < after) && w.ideal <= p && p + |separator| <= w.hard + 1 ==>
      !MatchAt(w.text, separator, p)
    requires 0 <= before || 0 <= after
    requires position
          == if 0 <= before && (after < 0 || Distance(before, w.ideal) <= Distance(after, w.ideal)) then before
             else after
    ensures w.Nearest(separator, position)
  {
  }

  method Boundary(text: string, start: nat, ideal: nat, hard: nat) returns (end: nat)
    requires start < ideal <= hard <= |text|
    ensures WindowAt(text, start, ideal, hard).Cut(end)
    ensures start < end <= hard
  {
    var w := WindowAt(text, start, ideal, hard);
    for k := 0 to |SEPARATORS|
      invariant forall j :: 0 <= j < k ==> w.NoCandidate(SEPARATORS[j])
    {
      var separator := SEPARATORS[k];
      var before := RFind(text, separator, w.lower, ideal + 1);
      var after := Find(text, separator, ideal, hard + 1);
      if 0 <= before || 0 <= after {
        var position :=
          if 0 <= before && (after < 0 || Distance(before, ideal) <= Distance(after, ideal)) then before else after;
        NearestFound(w, separator, before, after, position);
        end := Min(position + |separator|, hard);
        assert w.CutAfter(k, end);
        return;
      }
      assert w.NoCandidate(separator);
    }
    end := hard;
  }

  // ----- moving a cut out of a fence -----

  predicate Within(f: Span, p: int) {
    f.start < p < f.end
  }

  ghost predicate Free(spans: seq<Span>, p: int) {
    forall f :: f in spans ==> !Within(f, p)
  }

  /** A position inside a block moves to the block's start if that is past `start`, else to
      its end; any other position stays. */
  ghost predicate Moved(spans: seq<Span>, start: nat, p: int, r: int) {
    || (Free(spans, p) && r == p)
    || exists f :: f in spans && Within(f, p) && r == if start < f.start then f.start else f.end
  }

  method ProtectEnd(start: nat, proposed: nat, spans: seq<Span>) returns (end: nat)
    ensures Moved(spans, start, proposed, end)
  {
    for i := 0 to |spans|
      invariant forall j :: 0 <= j < i ==> !Within(spans[j], proposed)
    {
      var span := spans[i];
      if span.start < proposed < span.end {
        assert span in spans && Within(span, proposed);
        return if start < span.start then span.start else span.end;
      }
    }
    return proposed;
  }

  ghost predicate OverlapStart(spans: seq<Span>, start: nat, end: nat, overlap: nat, r: nat) {
    if end - overlap <= start then r == end else Moved(spans, start, end - overlap, r)
  }

  method ProtectOverlapStart(start: nat, end: nat, overlap: nat, spans: seq<Span>) returns (r: nat)
    ensures OverlapStart(spans, start, end, overlap, r)
  {
    var proposed := end - overlap;
    if proposed <= start {
      return end;
    }
    for i := 0 to |spans|
      invariant forall j :: 0 <= j < i ==> !Within(spans[j], proposed)
    {
      var span := spans[i];
      if span.start < proposed < span.end {
        assert span in spans && Within(span, proposed);
        return if start < span.start then span.start else span.end;
      }
    }
    return proposed;
  }

  // ----- the splitting loop -----

  function SkipSpace(text: string, i: nat, end: nat): (r: nat)
    requires i <= end <= |text|
    ensures i <= r <= end && Blank(text[i..r])
    ensures r < end ==> !IsSpace(text[r])
    decreases end - i
  {
    if i < end && IsSpace(text[i]) then
      var r := SkipSpace(text, i + 1, end);
      assert text[i..r] == [text[i]] + text[i + 1..r];
      r
    else i
  }

  /** Where the piece that starts at `start` ends. */
  ghost predicate EndRule(text: string, config: Config, spans: seq<Span>, start: nat, end: nat)
    requires ValidConfig(config)
  {
    if |text| - start <= config.maxSize then end == |text|
    else exists cut: nat ::
      WindowAt(text, start, start + config.targetSize, start + config.maxSize).Cut(cut)
      && start < cut <= start + config.maxSize && Moved(spans, start, cut, end)
  }

  /** Where the piece after `start..end` starts. */
  ghost predicate StartRule(text: string, config: Config, spans: seq<Span>, start: nat, end: nat, next: nat) {
    exists r: nat :: && OverlapStart(spans, start, end, config.overlap, r)
                     && r <= end <= |text| && next == SkipSpace(text, r, end)
  }

  /** `cuts` are the ranges of the loop's iterations before a piece that starts at `next`. */
  ghost predicate CutsUpTo(text: string, config: Config, spans: seq<Span>, cuts: seq<Span>, next: nat)
    requires ValidConfig(config)
  {
    if cuts == [] then next == 0
    else
      var front, cut := cuts[..|cuts| - 1], cuts[|cuts| - 1];
      && CutsUpTo(text, config, spans, front, cut.start)
      && cut.end < |text| && EndRule(text, config, spans, cut.start, cut.end)
      && StartRule(text, config, spans, cut.start, cut.end, next)
  }

  /** The ranges of a whole run: the last one, and only it, ends the text. */
  ghost predicate Cuts(text: string, config: Config, spans: seq<Span>, cuts: seq<Span>)
    requires ValidConfig(config)
  {
    && cuts != []
    && CutsUpTo(text, config, spans, cuts[..|cuts| - 1], cuts[|cuts| - 1].start)
    && cuts[|cuts| - 1].end == |text| && EndRule(text, config, spans, cuts[|cuts| - 1].start, |text|)
  }

  function Piece(text: string, cut: Span): (pieces: seq<string>)
    requires cut.start <= cut.end <= |text|
  {
    var piece := Strip(text[cut.start..cut.end]);
    if piece != "" then [piece] else []
  }

  ghost predicate InText(text: string, cuts: seq<Span>) {
    forall i :: 0 <= i < |cuts| ==> cuts[i].start <= cuts[i].end <= |text|
  }

  ghost function Pieces(text: string, cuts: seq<Span>): seq<string>
    requires InText(text, cuts)
  {
    if cuts == [] then [] else Pieces(text, cuts[..|cuts| - 1]) + Piece(text, cuts[|cuts| - 1])
  }

  lemma MovedIsFree(spans: seq<Span>, n: nat, start: nat, p: nat, r: int)
    requires Ordered(spans, n) && start < p <= n && Moved(spans, start, p, r)
    ensures start < r <= n && Free(spans, r)
  {
    if !(Free(spans, p) && r == p) {
      var f :| f in spans && Within(f, p) && r == if start < f.start then f.start else f.end;
      forall g | g in spans ensures !Within(g, r) {
        var i :| 0 <= i < |spans| && spans[i] == f;
        var j :| 0 <= j < |spans| && spans[j] == g;
      }
    }
  }

  lemma EndProgress(text: string, config: Config, spans: seq<Span>, start: nat, end: nat)
    requires ValidConfig(config) && Ordered(spans, |text|)
    requires start < |text| && EndRule(text, config, spans, start, end)
    ensures start < end <= |text| && Free(spans, end)
  {
    if |text| - start > config.maxSize {
      var cut: nat :| WindowAt(text, start, start + config.targetSize, start + config.maxSize).Cut(cut)
        && start < cut <= start + config.maxSize && Moved(spans, start, cut, end);
      MovedIsFree(spans, |text|, start, cut, end);
    }
  }

  /** A piece may start inside a block only by having skipped its leading white space. */
  ghost predicate Shallow(text: string, spans: seq<Span>, p: nat)
    requires p <= |text|
  {
    forall f :: f in spans && Within(f, p) ==> Blank(text[f.start..p])
  }

  lemma OverlapStartInRange(spans: seq<Span>, n: nat, start: nat, end: nat, overlap: nat, r: nat)
    requires Ordered(spans, n) && start < end <= n && Free(spans, end)
    requires OverlapStart(spans, start, end, overlap, r)
    ensures start < r <= end && Free(spans, r)
  {
    if start < end - overlap {
      MovedIsFree(spans, n, start, end - overlap, r);
      if !(Free(spans, end - overlap) && r == end - overlap) {
        var f :| f in spans && Within(f, end - overlap) && r == if start < f.start then f.start else f.end;
        assert !Within(f, end);
      }
    }
  }

  lemma StartProgress(text: string, config: Config, spans: seq<Span>, start: nat, end: nat, next: nat)
    requires Ordered(spans, |text|) && start < end <= |text| && Free(spans, end)
    requires StartRule(text, config, spans, start, end, next)
    ensures start < next <= end && Shallow(text, spans, next)
  {
    var r: nat :| OverlapStart(spans, start, end, config.overlap, r) && r <= end && next == SkipSpace(text, r, end);
    OverlapStartInRange(spans, |text|, start, end, config.overlap, r);
    forall f | f in spans && Within(f, next) ensures Blank(text[f.start..next]) {
      assert !Within(f, r);
      BlankPart(text, r, f.start, next, next);
    }
  }

  lemma PieceAppend(text: string, cuts: seq<Span>, cut: Span)
    requires InText(text, cuts) && cut.start <= cut.end <= |text|
    ensures InText(text, cuts + [cut])
    ensures Pieces(text, cuts + [cut]) == Pieces(text, cuts) + Piece(text, cut)
  {
    Seqs.DropLast(cuts, cut);
  }

  lemma CutsAppend(text: string, config: Config, spans: seq<Span>, cuts: seq<Span>, start: nat, end: nat, next: nat)
    requires ValidConfig(config) && CutsUpTo(text, config, spans, cuts, start)
    requires EndRule(text, config, spans, start, end) && end < |text|
    requires StartRule(text, config, spans, start, end, next)
    ensures CutsUpTo(text, config, spans, cuts + [Span(start, end)], next)
  {
    Seqs.DropLast(cuts, Span(start, end));
  }

  lemma TextSpansAreOrdered(text: string)
    ensures var lines := SplitLines(text); Ordered(Spans(lines, |lines|), |text|) && Marked(text, Spans(lines, |lines|))
  {
    var lines := SplitLines(text);
    SplitLinesLosesNothing(text);
    Seqs.TakeAll(lines);
    SpansAreOrdered(lines, |lines|);
    SpansAreMarked(lines, |lines|);
  }

  /** The first half of the loop body. */
  method NextEnd(text: string, config: Config, spans: seq<Span>, start: nat) returns (end: nat)
    requires ValidConfig(config) && Ordered(spans, |text|) && start < |text|
    ensures EndRule(text, config, spans, start, end)
    ensures start < end <= |text| && Free(spans, end)
  {
    if |text| - start <= config.maxSize {
      end := |text|;
    } else {
      var cut := Boundary(text, start, start + config.targetSize, start + config.maxSize);
      end := ProtectEnd(start, cut, spans);
      MovedIsFree(spans, |text|, start, cut, end);
    }
    // As `start < end`, the source's fallback for an empty piece is never taken.
  }

  lemma SkipOne(text: string, r: nat, next: nat, end: nat)
    requires r <= next < end <= |text| && SkipSpace(text, r, end) == SkipSpace(text, next, end) && IsSpace(text[next])
    ensures SkipSpace(text, r, end) == SkipSpace(text, next + 1, end)
  {
  }

  /** The second half of the loop body: step back by the overlap, then skip white space. */
  method NextStart(text: string, config: Config, spans: seq<Span>, start: nat, end: nat) returns (next: nat)
    requires Ordered(spans, |text|) && start < end <= |text| && Free(spans, end)
    ensures StartRule(text, config, spans, start, end, next)
    ensures start < next <= end && Shallow(text, spans, next)
  {
    next := ProtectOverlapStart(start, end, config.overlap, spans);
    OverlapStartInRange(spans, |text|, start, end, config.overlap, next);
    next := Max(start + 1, next);
    ghost var r := next;
    while next < end && IsSpace(text[next])
      invariant r <= next <= end
      invariant SkipSpace(text, r, end) == SkipSpace(text, next, end)
    {
      SkipOne(text, r, next, end);
      next := next + 1;
    }
    StartProgress(text, config, spans, start, end, next);
  }

  lemma CutsEnd(text: string, config: Config, spans: seq<Span>, cuts: seq<Span>, start: nat)
    requires ValidConfig(config) && CutsUpTo(text, config, spans, cuts, start)
    requires EndRule(text, config, spans, start, |text|)
    ensures Cuts(text, config, spans, cuts + [Span(start, |text|)])
  {
    Seqs.DropLast(cuts, Span(start, |text|));
  }

  method SplitOversized(text: string, config: Config) returns (pieces: seq<string>, ghost cuts: seq<Span>)
    requires ValidConfig(config)
    ensures |text| <= config.maxSize ==> pieces == [text]
    ensures |text| > config.maxSize ==>
              && Cuts(text, config, Spans(SplitLines(text), |SplitLines(text)|), cuts)
              && InText(text, cuts) && pieces == Pieces(text, cuts)
  {
    cuts := [];
    if |text| <= config.maxSize {
      return [text], [];
    }
    pieces := [];
    var spans := FencedSpans(text);
    TextSpansAreOrdered(text);
    var start := 0;
    while start < |text|
      invariant start < |text|
      invariant CutsUpTo(text, config, spans, cuts, start)
      invariant InText(text, cuts) && pieces == Pieces(text, cuts)
      decreases |text| - start
    {
      var end := NextEnd(text, config, spans, start);
      PieceAppend(text, cuts, Span(start, end));
      var piece := Strip(text[start..end]);
      if piece != "" {
        pieces := pieces + [piece];
      }
      if end == |text| {
        CutsEnd(text, config, spans, cuts, start);
        cuts := cuts + [Span(start, end)];
        return;
      }
      var next := NextStart(text, config, spans, start, end);
      CutsAppend(text, config, spans, cuts, start, end, next);
      cuts := cuts + [Span(start, end)];
      start := next;
    }
  }

  // ----- what every run of the splitter keeps -----

  /** Starts increase strictly from 0 and leave no gap. */
  ghost predicate Chained(cuts: seq<Span>, n: nat) {
    && (forall i :: 0 <= i < |cuts| ==> cuts[i].start < cuts[i].end <= n)
    && (forall i :: 0 < i < |cuts| ==> cuts[i - 1].start < cuts[i].start <= cuts[i - 1].end)
    && (cuts != [] ==> cuts[0].start == 0)
  }

  ghost predicate SafeCut(text: string, config: Config, spans: seq<Span>, cut: Span) {
    && cut.start <= |text| && Free(spans, cut.end) && Shallow(text, spans, cut.start)
    && (cut.end - cut.start <= config.maxSize || IsWholeBlock(text, spans, cut))
  }

  /** The range is one whole fenced block, up to leading white space. */
  ghost predicate IsWholeBlock(text: string, spans: seq<Span>, cut: Span) {
    exists f :: && f in spans && f.end == cut.end
                && f.start <= cut.start < f.end <= |text| && Blank(text[f.start..cut.start])
  }

  lemma MovedBoundsSize(text: string, spans: seq<Span>, start: nat, p: nat, end: nat, cut: Span)
    requires Ordered(spans, |text|) && start <= |text| && Shallow(text, spans, start) && start < p
    requires Moved(spans, start, p, end) && cut == Span(start, end)
    ensures end <= p || IsWholeBlock(text, spans, cut)
  {
    if !(Free(spans, p) && end == p) {
      var f :| f in spans && Within(f, p) && end == if start < f.start then f.start else f.end;
      if f.start < start {
        assert Within(f, start);
      }
    }
  }

  lemma EndRuleBoundsSize(text: string, config: Config, spans: seq<Span>, cut: Span)
    requires ValidConfig(config) && Ordered(spans, |text|)
    requires cut.start < |text| && Shallow(text, spans, cut.start)
    requires EndRule(text, config, spans, cut.start, cut.end)
    ensures SafeCut(text, config, spans, cut)
  {
    EndProgress(text, config, spans, cut.start, cut.end);
    if |text| - cut.start > config.maxSize {
      var p: nat :| WindowAt(text, cut.start, cut.start + config.targetSize, cut.start + config.maxSize).Cut(p)
        && cut.start < p <= cut.start + config.maxSize && Moved(spans, cut.start, p, cut.end);
      MovedBoundsSize(text, spans, cut.start, p, cut.end, cut);
    }
  }

  ghost predicate AllSafe(text: string, config: Config, spans: seq<Span>, cuts: seq<Span>) {
    forall cut :: cut in cuts ==> SafeCut(text, config, spans, cut)
  }

  lemma ChainedAppend(text: string, config: Config, spans: seq<Span>, cuts: seq<Span>, cut: Span)
    requires Chained(cuts, |text|) && AllSafe(text, config, spans, cuts)
    requires if cuts == [] then cut.start == 0 else cuts[|cuts| - 1].start < cut.start <= cuts[|cuts| - 1].end
    requires cut.start < cut.end <= |text| && SafeCut(text, config, spans, cut)
    ensures Chained(cuts + [cut], |text|) && AllSafe(text, config, spans, cuts + [cut])
  {
  }

  /** The next piece starts past the start of the last range and not past its end. */
  ghost predicate Follows(cuts: seq<Span>, next: nat) {
    if cuts == [] then next == 0 else cuts[|cuts| - 1].start < next <= cuts[|cuts| - 1].end
  }

  lemma {:induction false} PartialRun(text: string, config: Config, spans: seq<Span>, cuts: seq<Span>, next: nat)
    requires ValidConfig(config) && Ordered(spans, |text|) && text != "" && CutsUpTo(text, config, spans, cuts, next)
    ensures Chained(cuts, |text|) && AllSafe(text, config, spans, cuts)
    ensures Follows(cuts, next) && next < |text| && Shallow(text, spans, next)
  {
    if cuts != [] {
      var front, cut := cuts[..|cuts| - 1], cuts[|cuts| - 1];
      PartialRun(text, config, spans, front, cut.start);
      EndRuleBoundsSize(text, config, spans, cut);
      EndProgress(text, config, spans, cut.start, cut.end);
      StartProgress(text, config, spans, cut.start, cut.end, next);
      ChainedAppend(text, config, spans, front, cut);
      assert cuts == front + [cut];
    }
  }

  lemma WholeRun(text: string, config: Config, spans: seq<Span>, cuts: seq<Span>)
    requires ValidConfig(config) && Ordered(spans, |text|) && text != "" && Cuts(text, config, spans, cuts)
    ensures Chained(cuts, |text|) && AllSafe(text, config, spans, cuts)
  {
    var front, cut := cuts[..|cuts| - 1], cuts[|cuts| - 1];
    PartialRun(text, config, spans, front, cut.start);
    EndRuleBoundsSize(text, config, spans, cut);
    ChainedAppend(text, config, spans, front, cut);
    assert cuts == front + [cut];
  }

  /** The last range that starts at or before `p`. */
  ghost function LastFrom(cuts: seq<Span>, p: nat, i: nat): (r: nat)
    requires i < |cuts| && cuts[i].start <= p
    ensures i <= r < |cuts| && cuts[r].start <= p
    ensures r + 1 < |cuts| ==> p < cuts[r + 1].start
    decreases |cuts| - i
  {
    if i + 1 < |cuts| && cuts[i + 1].start <= p then LastFrom(cuts, p, i + 1) else i
  }

  lemma {:induction false} LastFromAscends(cuts: seq<Span>, p: nat, q: nat, i: nat)
    requires i < |cuts| && cuts[i].start <= p <= q
    ensures LastFrom(cuts, p, i) <= LastFrom(cuts, q, i)
    decreases |cuts| - i
  {
    if i + 1 < |cuts| && cuts[i + 1].start <= p {
      LastFromAscends(cuts, p, q, i + 1);
    }
  }

  lemma SomeCutContains(cuts: seq<Span>, n: nat, p: nat) returns (i: nat)
    requires Chained(cuts, n) && cuts != [] && cuts[|cuts| - 1].end == n && p < n
    ensures i < |cuts| && cuts[i].start <= p < cuts[i].end <= n && i == LastFrom(cuts, p, 0)
  {
    i := LastFrom(cuts, p, 0);
  }

  /** The character at `p` is the `k`-th of the piece made from range `i`. */
  ghost predicate InPiece(text: string, cuts: seq<Span>, p: nat, i: nat, k: nat) {
    && p < |text| && i < |cuts| && cuts[i].start <= p < cuts[i].end <= |text|
    && |Piece(text, cuts[i])| == 1 && k < |Piece(text, cuts[i])[0]| && Piece(text, cuts[i])[0][k] == text[p]
  }

  lemma PieceHolds(text: string, config: Config, spans: seq<Span>, cuts: seq<Span>, p: nat) returns (i: nat, k: nat)
    requires ValidConfig(config) && Ordered(spans, |text|) && Cuts(text, config, spans, cuts)
    requires p < |text| && !IsSpace(text[p])
    ensures InPiece(text, cuts, p, i, k)
    ensures cuts[0].start <= p && i == LastFrom(cuts, p, 0)
    ensures k == p - cuts[i].start - Stripped(text[cuts[i].start..cuts[i].end])
  {
    WholeRun(text, config, spans, cuts);
    i := SomeCutContains(cuts, |text|, p);
    k := RangePieceHolds(text, cuts[i], p);
  }

  lemma RangePieceHolds(text: string, cut: Span, p: nat) returns (k: nat)
    requires cut.start <= p < cut.end <= |text| && !IsSpace(text[p])
    ensures |Piece(text, cut)| == 1 && k < |Piece(text, cut)[0]| && Piece(text, cut)[0][k] == text[p]
    ensures k == p - cut.start - Stripped(text[cut.start..cut.end])
  {
    var part := text[cut.start..cut.end];
    assert part[p - cut.start] == text[p];
    k := StripKeeps(part, p - cut.start);
  }

  /** Nothing but white space can be lost, and order is kept: of any two characters that are not
      white space each occurs in a piece, the earlier in an earlier piece or earlier in the same. */
  lemma PiecesCoverText(text: string, config: Config, spans: seq<Span>, cuts: seq<Span>, p: nat, q: nat)
    returns (i: nat, k: nat, j: nat, l: nat)
    requires ValidConfig(config) && Ordered(spans, |text|) && Cuts(text, config, spans, cuts)
    requires p < q < |text| && !IsSpace(text[p]) && !IsSpace(text[q])
    ensures InPiece(text, cuts, p, i, k) && InPiece(text, cuts, q, j, l)
    ensures i < j || (i == j && k < l)
  {
    i, k := PieceHolds(text, config, spans, cuts, p);
    j, l := PieceHolds(text, config, spans, cuts, q);
    LastFromAscends(cuts, p, q, 0);
  }

  lemma FenceMark(text: string, f: Span) returns (m: nat)
    requires f.start <= f.end <= |text| && !Blank(text[f.start..f.end])
    ensures f.start <= m < f.end && Blank(text[f.start..m])
  {
    var block := text[f.start..f.end];
    var n := Indent(block);
    m := f.start + n;
    Seqs.TakeAll(block);
    Seqs.SliceOfSlice(text, f.start, f.end, n);
  }

  /** Every fenced block lies whole in one range, except for its leading white space. */
  lemma FencesStayWhole(text: string, config: Config, spans: seq<Span>, cuts: seq<Span>, f: Span) returns (i: nat)
    requires ValidConfig(config) && Ordered(spans, |text|) && Marked(text, spans) && Cuts(text, config, spans, cuts)
    requires f in spans
    ensures i < |cuts| && cuts[i].start < f.end <= cuts[i].end <= |text|
    ensures f.start < cuts[i].start ==> Blank(text[f.start..cuts[i].start])
  {
    WholeRun(text, config, spans, cuts);
    var m := FenceMark(text, f);
    i := SomeCutContains(cuts, |text|, m);
    CutsRespectFences(text, config, spans, cuts, i, f);
    if f.start < cuts[i].start {
      BlankPart(text, f.start, f.start, cuts[i].start, m);
    }
  }

  /** No range ends inside a block, none starts inside one past its leading white space, and
      a range longer than `maxSize` is one whole block. */
  lemma CutsRespectFences(text: string, config: Config, spans: seq<Span>, cuts: seq<Span>, i: nat, f: Span)
    requires ValidConfig(config) && Ordered(spans, |text|) && text != "" && Cuts(text, config, spans, cuts)
    requires i < |cuts| && f in spans
    ensures !Within(f, cuts[i].end)
    ensures cuts[i].start <= |text|
    ensures Within(f, cuts[i].start) ==> Blank(text[f.start..cuts[i].start])
    ensures cuts[i].end - cuts[i].start > config.maxSize ==> IsWholeBlock(text, spans, cuts[i])
  {
    WholeRun(text, config, spans, cuts);
    assert SafeCut(text, config, spans, cuts[i]);
  }
}
