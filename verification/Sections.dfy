/** Cutting a document at its headings: `_parse_sections` of src/zglab_rag/ingestion/chunking.py. */
module Sections {
  import opened Numbers
  import opened Text
  import opened Markdown
  import Seqs

  datatype Section = Section(path: seq<string>, content: string)

  /** `heading_stack[level - 1:] = [title]`: a slice past the end of the list only appends. */
  function Push(stack: seq<string>, level: nat, title: string): seq<string>
    requires 1 <= level
  {
    stack[..Min(level - 1, |stack|)] + [title]
  }

  /** The heading stack after the first `i` lines; `title` cleans up a heading's text. */
  function PathAt(lines: seq<string>, i: nat, title: string -> string): seq<string>
    requires i <= |lines|
  {
    if i == 0 then []
    else
      var path := PathAt(lines, i - 1, title);
      if Heads(lines, i - 1) then Push(path, HeadingLevel(lines[i - 1]), title(lines[i - 1])) else path
  }

  /** The positions among the first `n` lines where a section starts. */
  function Headings(lines: seq<string>, n: nat): (h: seq<nat>)
    requires n <= |lines|
    ensures forall k :: 0 <= k < |h| ==> h[k] < n
  {
    if n == 0 then [] else Headings(lines, n - 1) + if Heads(lines, n - 1) then [n - 1] else []
  }

  lemma {:induction false} HeadingIsHead(lines: seq<string>, n: nat, k: nat)
    requires n <= |lines| && k < |Headings(lines, n)|
    ensures Heads(lines, Headings(lines, n)[k])
  {
    if k < |Headings(lines, n - 1)| {
      HeadingIsHead(lines, n - 1, k);
    }
  }

  lemma {:induction false} HeadingsAscend(lines: seq<string>, n: nat, j: nat, k: nat)
    requires n <= |lines| && j < k < |Headings(lines, n)|
    ensures Headings(lines, n)[j] < Headings(lines, n)[k]
  {
    if k < |Headings(lines, n - 1)| {
      HeadingsAscend(lines, n - 1, j, k);
    }
  }

  lemma {:induction false} HeadIsListed(lines: seq<string>, n: nat, i: nat) returns (k: nat)
    requires i < n <= |lines| && Heads(lines, i)
    ensures k < |Headings(lines, n)| && Headings(lines, n)[k] == i
  {
    if i == n - 1 {
      k := |Headings(lines, n - 1)|;
    } else {
      k := HeadIsListed(lines, n - 1, i);
    }
  }

  /** Buffer `k` holds the lines from its bound to the next. */
  function Bound(lines: seq<string>, k: nat): (b: nat)
    requires k <= |Headings(lines, |lines|)| + 1
    ensures b <= |lines|
  {
    if k == 0 then 0
    else if k <= |Headings(lines, |lines|)| then Headings(lines, |lines|)[k - 1]
    else |lines|
  }

  lemma BoundsAscend(lines: seq<string>, k: nat)
    requires k <= |Headings(lines, |lines|)|
    ensures Bound(lines, k) <= Bound(lines, k + 1)
  {
    var h := Headings(lines, |lines|);
    if 0 < k < |h| {
      HeadingsAscend(lines, |lines|, k - 1, k);
    }
  }

  function Buffer(lines: seq<string>, k: nat): (buffer: seq<string>)
    requires k <= |Headings(lines, |lines|)|
    ensures Bound(lines, k) + |buffer| == Bound(lines, k + 1)
  {
    BoundsAscend(lines, k);
    lines[Bound(lines, k)..Bound(lines, k + 1)]
  }

  predicate HeadingOnly(content: string) {
    '\n' !in content && HeadingLevel(content) > 0
  }

  /** What flushing a buffer appends: nothing for blank text and for a lone heading. */
  function Flushed(path: seq<string>, buffer: seq<string>): seq<Section> {
    var content := Strip(Concat(buffer));
    if content != "" && !HeadingOnly(content) then [Section(path, content)] else []
  }

  /** A text is dropped when it is empty, or one line that matches the heading pattern; any other
      text is flushed as it is, in one section. */
  lemma FlushedIff(path: seq<string>, buffer: seq<string>, text: string)
    requires text == Strip(Concat(buffer))
    ensures Flushed(path, buffer)
         == if text != "" && ('\n' in text || !MatchesHeading(text)) then [Section(path, text)] else []
  {
    MatchesHeadingIff(text);
  }

  /** The sections of the first `n` buffers. */
  function SectionsOf(lines: seq<string>, n: nat, title: string -> string): seq<Section>
    requires n <= |Headings(lines, |lines|)| + 1
  {
    if n == 0 then []
    else SectionsOf(lines, n - 1, title) + Flushed(PathAt(lines, Bound(lines, n), title), Buffer(lines, n - 1))
  }

  lemma {:induction false} HeadingsPrefix(lines: seq<string>, m: nat, n: nat)
    requires m <= n <= |lines|
    ensures Headings(lines, m) <= Headings(lines, n)
    decreases n - m
  {
    if m < n {
      HeadingsPrefix(lines, m + 1, n);
    }
  }

  /** What reading line `i` does to the bounds: a heading is the next bound. */
  lemma NextBound(lines: seq<string>, i: nat, m: nat, k: nat, n: nat)
    requires i < |lines| && m == i + 1 && k == |Headings(lines, i)| && n == k + 1
    ensures |Headings(lines, m)| == if Heads(lines, i) then n else k
    ensures k <= |Headings(lines, |lines|)|
    ensures Heads(lines, i) ==> n <= |Headings(lines, |lines|)| && Bound(lines, n) == i
  {
    HeadingsPrefix(lines, m, |lines|);
    HeadingsPrefix(lines, i, |lines|);
    if Heads(lines, i) {
      assert Headings(lines, m)[k] == i;
    }
  }

  lemma PathNext(lines: seq<string>, i: nat, m: nat, title: string -> string)
    requires i < |lines| && m == i + 1
    ensures FenceBefore(lines, m) == NextFence(FenceBefore(lines, i), lines[i])
    ensures PathAt(lines, m, title)
         == if Heads(lines, i) then Push(PathAt(lines, i, title), HeadingLevel(lines[i]), title(lines[i]))
            else PathAt(lines, i, title)
  {
  }

  /** The fence state after a line, and whether the line is a heading. */
  method ReadLine(before: Fence, line: string) returns (fence: Fence, heading: bool)
    ensures fence == NextFence(before, line)
    ensures heading <==> before.Closed? && FenceMarker(line).NoMarker? && HeadingLevel(line) > 0
  {
    fence, heading := before, false;
    var marker := FenceMarker(line);
    if fence.Open? {
      if marker.Marker? && marker.kind == fence.kind && marker.length >= fence.length && marker.bare {
        fence := Closed;
      }
    } else if marker.Marker? {
      fence := Fence.Open(marker.kind, marker.length);
    } else {
      heading := HeadingLevel(line) > 0;
    }
  }

  /** The variables of the line loop before line `i`, with `k` sections flushed. */
  ghost predicate ParsedTo(lines: seq<string>, i: nat, k: nat, fence: Fence, path: seq<string>, current: seq<string>,
                           sections: seq<Section>, title: string -> string) {
    && i <= |lines| && k == |Headings(lines, i)| <= |Headings(lines, |lines|)|
    && Bound(lines, k) <= i && current == lines[Bound(lines, k)..i]
    && fence == FenceBefore(lines, i) && path == PathAt(lines, i, title) && sections == SectionsOf(lines, k, title)
  }

  lemma FlushStep(lines: seq<string>, k: nat, n: nat, i: nat, current: seq<string>, path: seq<string>,
                  title: string -> string)
    requires n == k + 1 && k <= |Headings(lines, |lines|)| && Bound(lines, k) <= i == Bound(lines, n)
    requires current == lines[Bound(lines, k)..i] && path == PathAt(lines, i, title)
    ensures SectionsOf(lines, n, title) == SectionsOf(lines, k, title) + Flushed(path, current)
  {
  }

  lemma HeadingParsed(lines: seq<string>, i: nat, m: nat, k: nat, n: nat, fence: Fence, path: seq<string>,
                      current: seq<string>, sections: seq<Section>, title: string -> string)
    requires ParsedTo(lines, i, k, fence, path, current, sections, title)
    requires i < |lines| && m == i + 1 && n == k + 1 && Heads(lines, i)
    ensures ParsedTo(lines, m, n, NextFence(fence, lines[i]), Push(path, HeadingLevel(lines[i]), title(lines[i])),
                     [lines[i]], sections + Flushed(path, current), title)
  {
    NextBound(lines, i, m, k, n);
    PathNext(lines, i, m, title);
    FlushStep(lines, k, n, i, current, path, title);
    Seqs.SliceOne(lines, i);
  }

  lemma LineParsed(lines: seq<string>, i: nat, m: nat, k: nat, fence: Fence, path: seq<string>,
                   current: seq<string>, sections: seq<Section>, title: string -> string)
    requires ParsedTo(lines, i, k, fence, path, current, sections, title)
    requires i < |lines| && m == i + 1 && !Heads(lines, i)
    ensures ParsedTo(lines, m, k, NextFence(fence, lines[i]), path, current + [lines[i]], sections, title)
  {
    NextBound(lines, i, m, k, k + 1);
    PathNext(lines, i, m, title);
    Seqs.SliceAppend(lines, Bound(lines, k), i);
  }

  lemma ParsedAll(lines: seq<string>, k: nat, n: nat, fence: Fence, path: seq<string>, current: seq<string>,
                  sections: seq<Section>, title: string -> string)
    requires k == |Headings(lines, |lines|)| && n == k + 1
    requires ParsedTo(lines, |lines|, k, fence, path, current, sections, title)
    ensures sections + Flushed(path, current) == SectionsOf(lines, n, title)
  {
    FlushStep(lines, k, n, |lines|, current, path, title);
  }

  /** The line loop. */
  method ParseLines(lines: seq<string>, title: string -> string)
    returns (fence: Fence, path: seq<string>, current: seq<string>, sections: seq<Section>)
    ensures ParsedTo(lines, |lines|, |Headings(lines, |lines|)|, fence, path, current, sections, title)
  {
    sections, path, current, fence := [], [], [], Closed;
    var stack: seq<string> := [];
    ghost var k := 0;
    for i := 0 to |lines|
      invariant ParsedTo(lines, i, k, fence, path, current, sections, title) && stack == path
    {
      var line := lines[i];
      ghost var before := fence;
      var heading;
      fence, heading := ReadLine(fence, line);
      if heading {
        HeadingParsed(lines, i, i + 1, k, k + 1, before, path, current, sections, title);
        sections := sections + Flushed(path, current);
        current := [line];
        stack := Push(stack, HeadingLevel(line), title(line));
        path := stack;
        k := k + 1;
      } else {
        LineParsed(lines, i, i + 1, k, before, path, current, sections, title);
        current := current + [line];
      }
    }
  }

  method ParseSections(markdown: string, title: string -> string) returns (sections: seq<Section>)
    ensures var lines := SplitLines(markdown);
            sections == SectionsOf(lines, |Headings(lines, |lines|)| + 1, title)
  {
    var lines := SplitLines(markdown);
    var fence, path, current;
    ghost var k := |Headings(lines, |lines|)|;
    fence, path, current, sections := ParseLines(lines, title);
    ParsedAll(lines, k, k + 1, fence, path, current, sections, title);
    sections := sections + Flushed(path, current);
  }

  // ----- cutting is lossless and never opens a fence -----

  ghost function Buffers(lines: seq<string>, n: nat): seq<string>
    requires n <= |Headings(lines, |lines|)| + 1
  {
    if n == 0 then [] else Buffers(lines, n - 1) + Buffer(lines, n - 1)
  }

  lemma {:induction false} BuffersArePrefix(lines: seq<string>, n: nat)
    requires n <= |Headings(lines, |lines|)| + 1
    ensures Buffers(lines, n) == lines[..Bound(lines, n)]
  {
    if n > 0 {
      BuffersArePrefix(lines, n - 1);
      BoundsAscend(lines, n - 1);
      Seqs.TakeMore(lines, Bound(lines, n - 1), Bound(lines, n));
    }
  }

  /** Every character of the document is in exactly one buffer, in order. */
  lemma BuffersLoseNothing(markdown: string)
    ensures var lines := SplitLines(markdown);
            Concat(Buffers(lines, |Headings(lines, |lines|)| + 1)) == markdown
  {
    var lines := SplitLines(markdown);
    BuffersArePrefix(lines, |Headings(lines, |lines|)| + 1);
    assert lines[..|lines|] == lines;
    SplitLinesLosesNothing(markdown);
  }

  lemma BufferStartsClosed(lines: seq<string>, k: nat)
    requires k <= |Headings(lines, |lines|)|
    ensures FenceBefore(lines, Bound(lines, k)).Closed?
  {
    if k > 0 {
      HeadingIsHead(lines, |lines|, k - 1);
    }
  }

  /** A slice that starts outside every fence, scanned alone. */
  lemma SliceScansAlike(lines: seq<string>, c: nat, d: nat, i: nat, p: nat)
    requires p == c + i < d <= |lines| && FenceBefore(lines, c).Closed?
    ensures Fenced(lines[c..d], i) <==> Fenced(lines, p)
    ensures Heads(lines[c..d], i) <==> Heads(lines, p)
  {
    RescanFromClosed(lines, c, d, i, p);
    RescanFromClosed(lines, c, d, i + 1, p + 1);
  }

  /** No buffer starts inside a fence, it holds no second section heading, and scanning it
      alone finds exactly the fences the document has there. */
  lemma BufferKeepsFences(lines: seq<string>, k: nat, i: nat, p: nat)
    requires k <= |Headings(lines, |lines|)| && i < |Buffer(lines, k)| && p == Bound(lines, k) + i
    ensures FenceBefore(lines, Bound(lines, k)).Closed?
    ensures Fenced(Buffer(lines, k), i) <==> Fenced(lines, p)
    ensures Heads(Buffer(lines, k), i) <==> i == 0 && 0 < k
  {
    BufferStartsClosed(lines, k);
    BoundsAscend(lines, k);
    SliceScansAlike(lines, Bound(lines, k), Bound(lines, k + 1), i, p);
    OnlyFirstHeads(lines, k, i, p);
  }

  lemma OnlyFirstHeads(lines: seq<string>, k: nat, i: nat, p: nat)
    requires k <= |Headings(lines, |lines|)| && p == Bound(lines, k) + i < Bound(lines, k + 1)
    ensures Heads(lines, p) <==> i == 0 && 0 < k
  {
    var h := Headings(lines, |lines|);
    BoundsAre(lines, h, k);
    if Heads(lines, p) {
      var j := HeadIsListed(lines, |lines|, p);
      forall x, y | 0 <= x < y < |h| ensures h[x] < h[y] {
        HeadingsAscend(lines, |lines|, x, y);
      }
      HeadingBetween(h, k, j);
    }
    if 0 < k {
      HeadingIsHead(lines, |lines|, k - 1);
    }
  }

  lemma BoundsAre(lines: seq<string>, h: seq<nat>, k: nat)
    requires h == Headings(lines, |lines|) && k <= |h|
    ensures 0 < k ==> Bound(lines, k) == h[k - 1]
    ensures k < |h| ==> Bound(lines, k + 1) == h[k]
  {
  }

  /** Only one heading lies from the one before buffer `k` up to the next one. */
  lemma HeadingBetween(h: seq<nat>, k: nat, j: nat)
    requires forall x, y :: 0 <= x < y < |h| ==> h[x] < h[y]
    requires k <= |h| && j < |h| && (0 < k ==> h[k - 1] <= h[j]) && (k < |h| ==> h[j] < h[k])
    ensures j + 1 == k
  {
  }

  // ----- section paths against the nesting of headings -----

  datatype OpenHeading = OpenHeading(level: nat, title: string)

  /** The open headings a heading of `level` stays inside: all from the first on, until one
      of the same or a deeper level. */
  function Enclosing(chain: seq<OpenHeading>, level: nat): (r: seq<OpenHeading>)
    ensures r <= chain
  {
    if chain == [] || chain[|chain| - 1].level < level then chain else Enclosing(chain[..|chain| - 1], level)
  }

  /** The chain of enclosing headings after the first `i` lines. */
  function Chain(lines: seq<string>, i: nat, title: string -> string): seq<OpenHeading>
    requires i <= |lines|
  {
    if i == 0 then []
    else
      var chain := Chain(lines, i - 1, title);
      if Heads(lines, i - 1) then
        Enclosing(chain, HeadingLevel(lines[i - 1])) + [OpenHeading(HeadingLevel(lines[i - 1]), title(lines[i - 1]))]
      else chain
  }

  function Titles(chain: seq<OpenHeading>): (r: seq<string>)
    ensures |r| == |chain|
  {
    seq(|chain|, i requires 0 <= i < |chain| => chain[i].title)
  }

  /** The heading on line `j` cuts the stack where it leaves its enclosing headings. */
  ghost predicate CutsWhereItLeaves(lines: seq<string>, j: nat, title: string -> string)
    requires j < |lines|
  {
    Heads(lines, j) ==>
      var chain, level := Chain(lines, j, title), HeadingLevel(lines[j]);
      |Enclosing(chain, level)| == Min(level - 1, |chain|)
  }

  ghost predicate PathIsEnclosing(lines: seq<string>, j: nat, title: string -> string)
    requires j <= |lines|
  {
    PathAt(lines, j, title) == Titles(Chain(lines, j, title))
  }

  /** Up to line `n` every path is the enclosing headings. */
  ghost predicate AllEnclosing(lines: seq<string>, n: nat, title: string -> string)
    requires n <= |lines|
  {
    forall j :: 0 <= j <= n ==> PathIsEnclosing(lines, j, title)
  }

  /** Every heading before line `n` leaves as many open headings as its level says. */
  ghost predicate AllCutRight(lines: seq<string>, n: nat, title: string -> string)
    requires n <= |lines|
  {
    forall j :: 0 <= j < n ==> CutsWhereItLeaves(lines, j, title)
  }

  lemma OneMorePath(lines: seq<string>, m: nat, n: nat, title: string -> string)
    requires n == m + 1 <= |lines|
    ensures AllEnclosing(lines, n, title) <==> AllEnclosing(lines, m, title) && PathIsEnclosing(lines, n, title)
  {
  }

  lemma OneMoreCut(lines: seq<string>, m: nat, n: nat, title: string -> string)
    requires n == m + 1 <= |lines|
    ensures AllCutRight(lines, n, title) <==> AllCutRight(lines, m, title) && CutsWhereItLeaves(lines, m, title)
  {
  }

  /** The section paths of a document are its enclosing headings exactly when every heading
      leaves as many open headings as its level says. */
  lemma {:induction false} PathsAreEnclosingHeadings(lines: seq<string>, n: nat, title: string -> string)
    requires n <= |lines|
    ensures AllEnclosing(lines, n, title) <==> AllCutRight(lines, n, title)
  {
    if n == 0 {
      assert PathIsEnclosing(lines, 0, title);
    } else {
      var m := n - 1;
      PathsAreEnclosingHeadings(lines, m, title);
      OneMorePath(lines, m, n, title);
      OneMoreCut(lines, m, n, title);
      if AllEnclosing(lines, m, title) {
        assert PathIsEnclosing(lines, m, title);
        PathStep(lines, m, title);
      }
    }
  }

  lemma PathStep(lines: seq<string>, i: nat, title: string -> string)
    requires i < |lines| && PathIsEnclosing(lines, i, title)
    ensures PathIsEnclosing(lines, i + 1, title) <==> CutsWhereItLeaves(lines, i, title)
  {
    if Heads(lines, i) {
      var chain, level := Chain(lines, i, title), HeadingLevel(lines[i]);
      var kept, cut := Enclosing(chain, level), Min(level - 1, |chain|);
      var open := OpenHeading(level, title(lines[i]));
      assert Titles(kept + [open]) == Titles(kept) + [open.title];
      assert Titles(kept) == Titles(chain)[..|kept|];
      if |kept| == cut {
      } else {
        assert |PathAt(lines, i + 1, title)| == cut + 1;
        assert |Titles(kept + [open])| == |kept| + 1;
      }
    }
  }

  lemma FirstLines(a: string, b: string, c: string)
    requires FenceMarker(a).NoMarker? && FenceMarker(b).NoMarker? && FenceMarker(c).NoMarker?
    requires HeadingLevel(a) > 0 && HeadingLevel(b) > 0 && HeadingLevel(c) > 0
    ensures Heads([a, b, c], 0) && Heads([a, b, c], 1) && Heads([a, b, c], 2)
  {
    var lines := [a, b, c];
    assert FenceBefore(lines, 0) == Closed;
    assert FenceBefore(lines, 1) == NextFence(Closed, a);
    assert FenceBefore(lines, 2) == NextFence(Closed, b);
  }

  /** Two sibling headings of the third or a deeper level, directly under a higher one: the
      second is filed under the first. */
  lemma SiblingsNestAfterSkippedLevel(a: string, b: string, c: string, title: string -> string)
    requires FenceMarker(a).NoMarker? && FenceMarker(b).NoMarker? && FenceMarker(c).NoMarker?
    requires 0 < HeadingLevel(a) < HeadingLevel(b) == HeadingLevel(c) && HeadingLevel(b) >= 3
    ensures PathAt([a, b, c], 3, title) == [title(a), title(b), title(c)]
    ensures Titles(Chain([a, b, c], 3, title)) == [title(a), title(c)]
  {
    var lines := [a, b, c];
    FirstLines(a, b, c);
    NestedPath(lines, title);
    SiblingChain(lines, title);
  }

  lemma SiblingChain(lines: seq<string>, title: string -> string)
    requires |lines| == 3 && Heads(lines, 0) && Heads(lines, 1) && Heads(lines, 2)
    requires HeadingLevel(lines[0]) < HeadingLevel(lines[1]) == HeadingLevel(lines[2])
    ensures Titles(Chain(lines, 3, title)) == [title(lines[0]), title(lines[2])]
  {
    var level := HeadingLevel(lines[1]);
    var ha := OpenHeading(HeadingLevel(lines[0]), title(lines[0]));
    var hb, hc := OpenHeading(level, title(lines[1])), OpenHeading(level, title(lines[2]));
    assert Chain(lines, 1, title) == [ha];
    assert Enclosing([ha], level) == [ha];
    assert Chain(lines, 2, title) == [ha, hb];
    assert [ha, hb][..1] == [ha];
    assert Enclosing([ha, hb], level) == [ha];
    assert Chain(lines, 3, title) == [ha, hc];
  }

  lemma NestedPath(lines: seq<string>, title: string -> string)
    requires |lines| == 3 && Heads(lines, 0) && Heads(lines, 1) && Heads(lines, 2)
    requires HeadingLevel(lines[1]) >= 2 && HeadingLevel(lines[2]) >= 3
    ensures PathAt(lines, 3, title) == [title(lines[0]), title(lines[1]), title(lines[2])]
  {
    assert PathAt(lines, 1, title) == [title(lines[0])];
    assert PathAt(lines, 2, title) == [title(lines[0]), title(lines[1])];
  }
}
