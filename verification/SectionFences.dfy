/** Sections handed to the splitter: what stripping a section does to its lines and fences, and
    which fenced blocks of a document stay whole (src/zglab_rag/ingestion/chunking.py). */
module SectionFences {
  import opened Text
  import opened Markdown
  import opened Sections
  import opened Splitter

  // ----- the lines of a part of a text -----

  /** Cutting behind the end of a line does not move it. */
  lemma {:induction false} LineEndBefore(text: string, n: nat, i: nat)
    requires i < |text| && LineEnd(text, i) <= n <= |text|
    ensures LineEnd(text[..n], i) == LineEnd(text, i)
    decreases |text| - i
  {
    if !IsLineBreak(text[i]) && i + 1 < |text| {
      LineEndBefore(text, n, i + 1);
    }
  }

  /** A line cut after a visible character ends there. */
  lemma {:induction false} LineEndCut(text: string, n: nat, i: nat)
    requires i < |text| && i < n < LineEnd(text, i) && !IsSpace(text[n - 1])
    ensures LineEnd(text[..n], i) == n
    decreases |text| - i
  {
    if !IsLineBreak(text[i]) && i + 1 < n {
      LineEndCut(text, n, i + 1);
    }
  }

  /** Dropping what lies before a position does not move the end of its line. */
  lemma {:induction false} LineEndAfter(text: string, d: nat, i: nat, j: nat)
    requires i == d + j < |text|
    ensures d + LineEnd(text[d..], j) == LineEnd(text, i)
    decreases |text| - i
  {
    if !IsLineBreak(text[i]) && i + 1 < |text| {
      LineEndAfter(text, d, i + 1, j + 1);
    }
  }

  /** A visible character lies on the same line as everything before it on that line. */
  lemma {:induction false} SameLine(text: string, i: nat, p: nat)
    requires i < |text| && i <= p < LineEnd(text, i) && !IsSpace(text[p])
    ensures LineEnd(text, p) == LineEnd(text, i)
    decreases |text| - i
  {
    if i < p {
      SameLine(text, i + 1, p);
    }
  }

  lemma LinesNext(text: string, end: nat)
    requires text != "" && end == LineEnd(text, 0)
    ensures SplitLines(text) == [text[..end]] + SplitLines(text[end..])
  {
  }

  lemma {:induction false} LinesFrom(text: string, c: nat)
    requires c <= |SplitLines(text)|
    ensures SplitLines(Concat(SplitLines(text)[c..])) == SplitLines(text)[c..]
    decreases c
  {
    var lines := SplitLines(text);
    if c == 0 {
      SplitLinesLosesNothing(text);
      assert lines[0..] == lines;
    } else {
      var end := LineEnd(text, 0);
      LinesFrom(text[end..], c - 1);
      assert lines[c..] == SplitLines(text[end..])[c - 1..];
    }
  }

  lemma ConcatFirst(line: string, rest: seq<string>)
    ensures Concat([line] + rest) == line + Concat(rest)
  {
    ConcatAppend([line], rest);
    assert [line][..0] == [] && Concat([line]) == Concat([]) + line;
  }

  lemma PrefixOfConcat(a: seq<string>, b: seq<string>, lines: seq<string>)
    requires lines == a + b
    ensures Concat(a) <= Concat(lines)
  {
    ConcatAppend(a, b);
  }

  /** The first line of a text, followed by the start of what follows it. */
  lemma FirstLineStays(text: string, end: nat, line: string, part: string, cut: string)
    requires text != "" && end == LineEnd(text, 0) && line == text[..end] && part <= text[end..] && cut == line + part
    ensures SplitLines(cut) == [line] + SplitLines(part)
  {
    var n := |cut|;
    assert text[..n] == cut;
    LineEndBefore(text, n, 0);
    LinesNext(cut, end);
    assert cut[..end] == line && cut[end..] == part;
  }

  lemma {:induction false} LinesUpTo(text: string, d: nat)
    requires d <= |SplitLines(text)|
    ensures SplitLines(Concat(SplitLines(text)[..d])) == SplitLines(text)[..d]
    decreases d
  {
    if d > 0 {
      var end, e := LineEnd(text, 0), d - 1;
      var line, rest := text[..end], SplitLines(text[end..]);
      LinesNext(text, end);
      assert ([line] + rest)[..d] == [line] + rest[..e];
      SplitLinesLosesNothing(text[end..]);
      assert rest == rest[..e] + rest[e..];
      PrefixOfConcat(rest[..e], rest[e..], rest);
      LinesUpTo(text[end..], e);
      ConcatFirst(line, rest[..e]);
      FirstLineStays(text, end, line, Concat(rest[..e]), Concat([line] + rest[..e]));
    }
  }

  /** The lines of any stretch of lines are those lines. */
  lemma LinesOfPart(text: string, c: nat, d: nat, part: seq<string>)
    requires c <= d <= |SplitLines(text)| && part == SplitLines(text)[c..d]
    ensures SplitLines(Concat(part)) == part
  {
    var rest := SplitLines(text)[c..];
    LinesFrom(text, c);
    LinesUpTo(Concat(rest), d - c);
    assert rest[..d - c] == part;
  }

  // ----- the lines of a stripped text -----

  predicate EndsVisibly(s: string) {
    s != "" && !IsSpace(s[|s| - 1])
  }

  predicate StartsVisibly(s: string) {
    s != "" && !IsSpace(s[0])
  }

  /** `a` is `b` without its last lines and the end of the one before, all of it white space. */
  ghost predicate EndTrimmed(a: seq<string>, b: seq<string>) {
    && a != [] && |a| <= |b| && a[..|a| - 1] == b[..|a| - 1] && EndsVisibly(a[|a| - 1])
    && exists w :: Blank(w) && b[|a| - 1] == a[|a| - 1] + w
  }

  lemma EndTrimmedNext(line: string, a: seq<string>, b: seq<string>)
    requires EndTrimmed(a, b)
    ensures EndTrimmed([line] + a, [line] + b)
  {
    var w :| Blank(w) && b[|a| - 1] == a[|a| - 1] + w;
    var la, lb := [line] + a, [line] + b;
    assert la[|la| - 1] == a[|a| - 1] && lb[|la| - 1] == b[|a| - 1];
    assert la[..|la| - 1] == [line] + a[..|a| - 1] && lb[..|la| - 1] == [line] + b[..|a| - 1];
  }

  lemma OneLineCut(text: string, n: nat, end: nat, cut: string)
    requires 0 < n <= end && n <= |text| && end == LineEnd(text, 0) && cut == text[..n]
    requires !IsSpace(text[n - 1]) && Blank(text[n..])
    ensures EndTrimmed(SplitLines(cut), SplitLines(text))
  {
    var w := text[n..end];
    if n < end {
      LineEndCut(text, n, 0);
    } else {
      LineEndBefore(text, n, 0);
    }
    LinesNext(cut, n);
    LinesNext(text, end);
    assert cut[..n] == cut && cut[n..] == "";
    assert forall i :: 0 <= i < |w| ==> w[i] == text[n..][i];
    assert Blank(w) && text[..end] == cut + w;
    assert [cut][..0] == [text[..end]][..0];
  }

  /** Cutting a text after a visible character shortens its last line. */
  lemma {:induction false} LinesOfCut(text: string, n: nat, cut: string)
    requires 0 < n <= |text| && !IsSpace(text[n - 1]) && Blank(text[n..]) && cut == text[..n]
    ensures EndTrimmed(SplitLines(cut), SplitLines(text))
    decreases |text|
  {
    var end := LineEnd(text, 0);
    if n <= end {
      OneLineCut(text, n, end, cut);
    } else {
      var line, rest, part := text[..end], text[end..], text[end..][..n - end];
      assert rest[n - end..] == text[n..] && cut == line + part;
      FirstLineStays(text, end, line, part, cut);
      LinesNext(text, end);
      LinesOfCut(rest, n - end, part);
      EndTrimmedNext(line, SplitLines(part), SplitLines(rest));
    }
  }

  /** `a` is `b` without its first lines and the start of the next one, all of it white space. */
  ghost predicate StartTrimmed(a: seq<string>, b: seq<string>, k: nat) {
    && a != [] && |b| == k + |a| && a[1..] == b[k + 1..]
    && (forall i :: 0 <= i < k ==> Blank(b[i])) && StartsVisibly(a[0])
    && exists u :: Blank(u) && b[k] == u + a[0]
  }

  lemma StartTrimmedNext(line: string, a: seq<string>, b: seq<string>, k: nat)
    requires StartTrimmed(a, b, k) && Blank(line)
    ensures StartTrimmed(a, [line] + b, k + 1)
  {
    var u :| Blank(u) && b[k] == u + a[0];
    var lb := [line] + b;
    assert lb[k + 1] == b[k] && lb[k + 2..] == b[k + 1..];
  }

  lemma DroppedLineEnd(text: string, p: nat, end: nat, left: string)
    requires p < |text| && p < end == LineEnd(text, 0) && left == text[p..] && !IsSpace(text[p])
    ensures LineEnd(left, 0) == end - p
  {
    SameLine(text, 0, p);
    LineEndAfter(text, p, p, 0);
  }

  lemma OneLineDropped(text: string, p: nat, end: nat, left: string, first: string)
    requires p < |text| && p < end == LineEnd(text, 0) && left == text[p..] && !IsSpace(text[p])
    requires first == text[p..end]
    ensures SplitLines(left) == [first] + SplitLines(text[end..])
    ensures text[..end] == text[..p] + first && StartsVisibly(first)
  {
    var n := end - p;
    DroppedLineEnd(text, p, end, left);
    LinesNext(left, n);
    assert left[..n] == first && left[n..] == text[end..];
  }

  lemma FirstLineTrimmed(u: string, v: string, line: string, rest: seq<string>)
    requires Blank(u) && StartsVisibly(v) && line == u + v
    ensures StartTrimmed([v] + rest, [line] + rest, 0)
  {
    assert ([v] + rest)[1..] == rest == ([line] + rest)[1..];
  }

  /** Dropping white space in front of a visible character drops lines and shortens the next. */
  lemma {:induction false} LinesOfDrop(text: string, p: nat, left: string) returns (k: nat)
    requires p < |text| && !IsSpace(text[p]) && Blank(text[..p]) && left == text[p..]
    ensures StartTrimmed(SplitLines(left), SplitLines(text), k)
    decreases |text|
  {
    var end := LineEnd(text, 0);
    if p < end {
      k := 0;
      OneLineDropped(text, p, end, left, text[p..end]);
      LinesNext(text, end);
      FirstLineTrimmed(text[..p], text[p..end], text[..end], SplitLines(text[end..]));
    } else {
      var line, rest, q := text[..end], text[end..], p - end;
      assert line == text[..p][..end] && rest[q..] == left && rest[..q] == text[..p][end..];
      LinesNext(text, end);
      k := LinesOfDrop(rest, q, left);
      StartTrimmedNext(line, SplitLines(left), SplitLines(rest), k);
      k := k + 1;
    }
  }

  // ----- fences -----

  lemma {:induction false} RunEnds(line: string, v: string, i: nat, chars: set<char>)
    requires i <= |v| && v <= line && (|v| < |line| ==> line[|v|] !in chars)
    ensures Run(v, i, chars) == Run(line, i, chars)
    decreases |v| - i
  {
    if i < |v| && v[i] in chars {
      RunEnds(line, v, i + 1, chars);
    }
  }

  lemma BlankMiddle(v: string, w: string, i: nat)
    requires i <= |v| && Blank(w)
    ensures Blank((v + w)[i..]) <==> Blank(v[i..])
  {
    assert (v + w)[i..] == v[i..] + w;
    assert forall j :: 0 <= j < |v[i..]| ==> (v[i..] + w)[j] == v[i..][j];
  }

  lemma MarkerAt(line: string, k: nat, c: char, n: nat)
    requires k == Run(line, 0, {' ', '\t'}) < |line| && c == line[k] && n == Run(line, k, {c})
    ensures FenceMarker(line)
         == if k > 3 || c !in {'`', '~'} || n < 3 then NoMarker else Marker(c, n, Blank(line[k + n..]))
  {
  }

  /** The fence marker depends on the indentation up to three, the marker run and what follows. */
  lemma SameMarker(a: string, i: nat, b: string, j: nat, c: char, n: nat)
    requires i == Run(a, 0, {' ', '\t'}) < |a| && j == Run(b, 0, {' ', '\t'}) < |b|
    requires (i > 3 <==> j > 3) && a[i] == c == b[j] && Run(a, i, {c}) == n == Run(b, j, {c})
    requires Blank(a[i + n..]) <==> Blank(b[j + n..])
    ensures FenceMarker(a) == FenceMarker(b)
  {
    MarkerAt(a, i, c, n);
    MarkerAt(b, j, c, n);
  }

  /** White space at the end of a line does not matter to a fence. */
  lemma MarkerOfTrimmed(line: string, v: string, w: string)
    requires line == v + w && Blank(w) && EndsVisibly(v)
    ensures FenceMarker(v) == FenceMarker(line)
  {
    var k := Run(v, 0, {' ', '\t'});
    IndentRunEnds(line, v, w);
    var c := v[k];
    assert line[k] == c;
    if IsSpace(c) {
      MarkerAt(v, k, c, Run(v, k, {c}));
      MarkerAt(line, k, c, Run(line, k, {c}));
    } else {
      FenceRunEnds(line, v, w, k, c, Run(v, k, {c}));
      SameMarker(v, k, line, k, c, Run(v, k, {c}));
    }
  }

  lemma FenceRunEnds(line: string, v: string, w: string, k: nat, c: char, n: nat)
    requires line == v + w && Blank(w) && k < |v| && !IsSpace(c) && n == Run(v, k, {c})
    ensures Run(line, k, {c}) == n && (Blank(line[k + n..]) <==> Blank(v[k + n..]))
  {
    assert w != "" ==> line[|v|] == w[0];
    RunEnds(line, v, k, {c});
    BlankMiddle(v, w, k + n);
  }

  lemma IndentRunEnds(line: string, v: string, w: string)
    requires line == v + w && Blank(w) && EndsVisibly(v)
    ensures Run(v, 0, {' ', '\t'}) == Run(line, 0, {' ', '\t'}) < |v|
  {
    RunSame(line, v, 0);
  }

  lemma {:induction false} RunSame(line: string, v: string, i: nat)
    requires v <= line && i < |v| && EndsVisibly(v)
    ensures Run(v, i, {' ', '\t'}) == Run(line, i, {' ', '\t'}) && i + Run(v, i, {' ', '\t'}) < |v|
    decreases |v| - i
  {
    if v[i] in {' ', '\t'} {
      RunSame(line, v, i + 1);
    }
  }

  /** Nor does its indentation: dropping it keeps a fence, but may make a line one. */
  lemma MarkerOfIndented(line: string, u: string, v: string)
    requires line == u + v && Blank(u) && StartsVisibly(v) && FenceMarker(line).Marker?
    ensures FenceMarker(v) == FenceMarker(line)
  {
    var k := IndentOfFence(line);
    IndentIsDropped(line, u, v, k);
    FenceRunShifts(line, u, v, k, line[k], Run(line, k, {line[k]}));
    SameMarker(line, k, v, 0, line[k], Run(line, k, {line[k]}));
  }

  lemma IndentOfFence(line: string) returns (k: nat)
    requires FenceMarker(line).Marker?
    ensures k == Run(line, 0, {' ', '\t'}) <= 3 && k < |line| && !IsSpace(line[k])
  {
    k := Run(line, 0, {' ', '\t'});
  }

  lemma IndentIsDropped(line: string, u: string, v: string, k: nat)
    requires line == u + v && Blank(u) && StartsVisibly(v) && k == Run(line, 0, {' ', '\t'})
    requires k < |line| && !IsSpace(line[k])
    ensures k == |u|
  {
    assert line[|u|] == v[0];
    assert forall j :: 0 <= j < |u| ==> line[j] == u[j];
  }

  lemma FenceRunShifts(line: string, u: string, v: string, k: nat, c: char, n: nat)
    requires line == u + v && StartsVisibly(v) && k == |u| && c == line[k] && n == Run(line, k, {c})
    ensures c == v[0] && Run(v, 0, {c}) == n && line[k + n..] == v[n..] && Run(v, 0, {' ', '\t'}) == 0
  {
    RunShifts(line, u, v, 0, {c});
  }

  lemma {:induction false} RunShifts(line: string, u: string, v: string, i: nat, chars: set<char>)
    requires line == u + v && i <= |v|
    ensures Run(line, |u| + i, chars) == Run(v, i, chars)
    decreases |v| - i
  {
    if i < |v| && v[i] in chars {
      RunShifts(line, u, v, i + 1, chars);
    }
  }

  lemma {:induction false} SameFences(a: seq<string>, b: seq<string>, n: nat)
    requires n <= |a| && n <= |b| && forall i :: 0 <= i < n ==> FenceMarker(a[i]) == FenceMarker(b[i])
    ensures FenceBefore(a, n) == FenceBefore(b, n)
  {
    if n > 0 {
      SameFences(a, b, n - 1);
    }
  }

  lemma {:induction false} BlankLinesOpenNothing(lines: seq<string>, k: nat)
    requires k <= |lines| && forall i :: 0 <= i < k ==> Blank(lines[i])
    ensures FenceBefore(lines, k) == Closed
  {
    if k > 0 {
      BlankLinesOpenNothing(lines, k - 1);
    }
  }

  lemma EndKeepsMarkers(a: seq<string>, b: seq<string>, i: nat)
    requires EndTrimmed(a, b) && i < |a|
    ensures FenceMarker(a[i]) == FenceMarker(b[i])
  {
    if i == |a| - 1 {
      var w :| Blank(w) && b[i] == a[i] + w;
      MarkerOfTrimmed(b[i], a[i], w);
    } else {
      assert a[..|a| - 1][i] == b[..|a| - 1][i];
    }
  }

  /** The first line with its indentation dropped opens a fence exactly if it did before. */
  predicate FirstLineKept(a: seq<string>, b: seq<string>, k: nat)
    requires a != [] && k < |b|
  {
    FenceMarker(a[0]).Marker? ==> FenceMarker(b[k]).Marker?
  }

  lemma StartKeepsMarkers(a: seq<string>, b: seq<string>, k: nat, i: nat)
    requires StartTrimmed(a, b, k) && FirstLineKept(a, b, k) && i < |a|
    ensures FenceMarker(a[i]) == FenceMarker(b[k + i])
  {
    if i == 0 {
      var u :| Blank(u) && b[k] == u + a[0];
      if FenceMarker(b[k]).Marker? {
        MarkerOfIndented(b[k], u, a[0]);
      }
    } else {
      assert a[1..][i - 1] == b[k + 1..][i - 1];
    }
  }

  /** The fence state before line `i`, counted from line `k`. */
  function FenceFrom(lines: seq<string>, k: nat, i: nat): Fence
    requires k + i <= |lines|
  {
    FenceBefore(lines, k + i)
  }

  /** Scanning `a` alone finds the fences that scanning `b` finds from line `k` on. */
  ghost predicate ScansAlike(a: seq<string>, b: seq<string>, k: nat) {
    k + |a| <= |b| && forall i :: 0 <= i <= |a| ==> FenceBefore(a, i) == FenceFrom(b, k, i)
  }

  /** Scanning the lines left finds the fences there were exactly when the first line is kept. */
  lemma StartKeepsFencesIff(a: seq<string>, b: seq<string>, k: nat)
    requires StartTrimmed(a, b, k)
    ensures ScansAlike(a, b, k) <==> FirstLineKept(a, b, k)
  {
    BlankLinesOpenNothing(b, k);
    if FirstLineKept(a, b, k) {
      forall i | 0 <= i <= |a| ensures FenceBefore(a, i) == FenceFrom(b, k, i) {
        FencesFrom(a, b, k, i, k + i, b[k..|b|]);
      }
    } else {
      assert FenceBefore(a, 0) == Closed && FenceBefore(a, 1) != FenceFrom(b, k, 1);
    }
  }

  lemma FencesFrom(a: seq<string>, b: seq<string>, k: nat, i: nat, p: nat, part: seq<string>)
    requires StartTrimmed(a, b, k) && FirstLineKept(a, b, k) && i <= |a| && FenceBefore(b, k) == Closed
    requires p == k + i && part == b[k..|b|]
    ensures FenceBefore(a, i) == FenceBefore(b, p)
  {
    MarkersFrom(a, b, k, part);
    SameFences(a, part, i);
    RescanFromClosed(b, k, |b|, i, p);
  }

  lemma MarkersFrom(a: seq<string>, b: seq<string>, k: nat, part: seq<string>)
    requires StartTrimmed(a, b, k) && FirstLineKept(a, b, k) && part == b[k..|b|]
    ensures |part| == |a| && forall j :: 0 <= j < |a| ==> FenceMarker(a[j]) == FenceMarker(part[j])
  {
    forall j | 0 <= j < |a| ensures FenceMarker(a[j]) == FenceMarker(part[j]) {
      StartKeepsMarkers(a, b, k, j);
    }
  }

  // ----- a stripped text -----

  /** How many lines at the start are white space only. */
  function BlankLines(lines: seq<string>): (k: nat)
    ensures k <= |lines| && (forall i :: 0 <= i < k ==> Blank(lines[i])) && (k < |lines| ==> !Blank(lines[k]))
  {
    if lines == [] || !Blank(lines[0]) then 0 else 1 + BlankLines(lines[1..])
  }

  lemma FirstVisibleLine(b: seq<string>, k: nat)
    requires k < |b| && (forall i :: 0 <= i < k ==> Blank(b[i])) && !Blank(b[k])
    ensures BlankLines(b) == k
  {
    var l := BlankLines(b);
    assert l <= k;
    assert k <= l;
  }

  lemma VisibleAfter(line: string, u: string, v: string)
    requires line == u + v && StartsVisibly(v)
    ensures !Blank(line)
  {
    assert line[|u|] == v[0];
  }

  lemma VisibleBefore(line: string, v: string, w: string)
    requires line == v + w && !Blank(v)
    ensures !Blank(line)
  {
    var i :| 0 <= i < |v| && !IsSpace(v[i]);
    assert line[i] == v[i];
  }

  lemma EndKeepsFences(m: seq<string>, b: seq<string>, i: nat)
    requires EndTrimmed(m, b) && i <= |m|
    ensures FenceBefore(m, i) == FenceBefore(b, i)
  {
    forall j | 0 <= j < i ensures FenceMarker(m[j]) == FenceMarker(b[j]) {
      EndKeepsMarkers(m, b, j);
    }
    SameFences(m, b, i);
  }

  lemma EndKeepsBlankLines(m: seq<string>, b: seq<string>, a: seq<string>, k: nat)
    requires EndTrimmed(m, b) && StartTrimmed(a, m, k)
    ensures k < |b| && BlankLines(b) == k
  {
    var u :| Blank(u) && m[k] == u + a[0];
    VisibleAfter(m[k], u, a[0]);
    forall i | 0 <= i < k ensures b[i] == m[i] {
      assert m[..|m| - 1][i] == b[..|m| - 1][i];
    }
    if k == |m| - 1 {
      var w :| Blank(w) && b[k] == m[k] + w;
      VisibleBefore(b[k], m[k], w);
    } else {
      assert m[..|m| - 1][k] == b[..|m| - 1][k];
    }
    FirstVisibleLine(b, k);
  }

  /** Scanning a stripped text finds the fences of the text exactly when its first visible line
      is not made a fence by losing its indentation. */
  lemma StripKeepsFencesIff(text: string, a: seq<string>, b: seq<string>, k: nat)
    requires Strip(text) != "" && a == SplitLines(Strip(text)) && b == SplitLines(text) && k == BlankLines(b)
    ensures a != [] && k + |a| <= |b|
    ensures ScansAlike(a, b, k) <==> FirstLineKept(a, b, k)
  {
    var n := TrimmedLength(text);
    var t := text[..n];
    LinesOfCut(text, n, t);
    var l := LinesOfDrop(t, Indent(t), Strip(text));
    TrimmedScansAlikeIff(a, SplitLines(t), b, l);
  }

  lemma TrimmedScansAlikeIff(a: seq<string>, m: seq<string>, b: seq<string>, k: nat)
    requires EndTrimmed(m, b) && StartTrimmed(a, m, k)
    ensures k == BlankLines(b) && k + |a| <= |b|
    ensures ScansAlike(a, b, k) <==> FirstLineKept(a, b, k)
  {
    EndKeepsBlankLines(m, b, a, k);
    StartKeepsFencesIff(a, m, k);
    EndKeepsMarkers(m, b, k);
    SameFirstLine(a, m, k, b, k);
    EndScansAlike(a, m, b, k);
  }

  lemma SameFirstLine(a: seq<string>, b: seq<string>, k: nat, c: seq<string>, l: nat)
    requires a != [] && k < |b| && l < |c| && FenceMarker(b[k]) == FenceMarker(c[l])
    ensures FirstLineKept(a, b, k) <==> FirstLineKept(a, c, l)
  {
  }

  lemma EndScansAlike(a: seq<string>, m: seq<string>, b: seq<string>, k: nat)
    requires EndTrimmed(m, b) && k + |a| <= |m|
    ensures ScansAlike(a, m, k) <==> ScansAlike(a, b, k)
  {
    forall i | 0 <= i <= |a| ensures FenceFrom(m, k, i) == FenceFrom(b, k, i) {
      EndFenceFrom(m, b, k, i);
    }
    SameScan(a, m, k, b, k);
  }

  lemma EndFenceFrom(m: seq<string>, b: seq<string>, k: nat, i: nat)
    requires EndTrimmed(m, b) && k + i <= |m|
    ensures FenceFrom(m, k, i) == FenceFrom(b, k, i)
  {
    EndKeepsFences(m, b, k + i);
  }

  lemma SameScan(a: seq<string>, b: seq<string>, k: nat, c: seq<string>, l: nat)
    requires k + |a| <= |b| && l + |a| <= |c| && forall i :: 0 <= i <= |a| ==> FenceFrom(b, k, i) == FenceFrom(c, l, i)
    ensures ScansAlike(a, b, k) <==> ScansAlike(a, c, l)
  {
  }

  // ----- a section of a document -----

  /** Scanning the text of a section finds the fences the document has there exactly when the
      first visible line of the section is not made a fence by losing its indentation. */
  lemma SectionKeepsFencesIff(markdown: string, lines: seq<string>, s: nat, a: seq<string>, first: nat)
    requires lines == SplitLines(markdown) && s <= |Headings(lines, |lines|)|
    requires Strip(Concat(Buffer(lines, s))) != "" && a == SplitLines(Strip(Concat(Buffer(lines, s))))
    requires first == Bound(lines, s) + BlankLines(Buffer(lines, s))
    ensures a != [] && first + |a| <= Bound(lines, s + 1)
    ensures ScansAlike(a, lines, first) <==> FirstLineKept(a, lines, first)
  {
    var buffer, c, d := Buffer(lines, s), Bound(lines, s), Bound(lines, s + 1);
    LinesOfPart(markdown, c, d, buffer);
    BufferStartsClosed(lines, s);
    PartKeepsFencesIff(lines, c, d, buffer, Concat(buffer), a, BlankLines(buffer), first);
  }

  lemma PartKeepsFencesIff(lines: seq<string>, c: nat, d: nat, buffer: seq<string>, text: string, a: seq<string>,
                           k: nat, first: nat)
    requires c <= d <= |lines| && buffer == lines[c..d] && FenceBefore(lines, c).Closed?
    requires SplitLines(text) == buffer && Strip(text) != "" && a == SplitLines(Strip(text))
    requires k == BlankLines(buffer) && first == c + k
    ensures a != [] && first + |a| <= d
    ensures ScansAlike(a, lines, first) <==> FirstLineKept(a, lines, first)
  {
    StripKeepsFencesIff(text, a, buffer, k);
    BufferKeepsFirstLine(lines, c, d, buffer, k, a, first);
    BufferScansAlike(lines, c, d, buffer, k, a, first);
  }

  lemma BufferKeepsFirstLine(lines: seq<string>, c: nat, d: nat, buffer: seq<string>, k: nat, a: seq<string>,
                             first: nat)
    requires c <= d <= |lines| && buffer == lines[c..d] && a != [] && k < |buffer| && first == c + k
    ensures FirstLineKept(a, buffer, k) <==> FirstLineKept(a, lines, first)
  {
    assert buffer[k] == lines[first];
    SameFirstLine(a, buffer, k, lines, first);
  }

  lemma BufferScansAlike(lines: seq<string>, c: nat, d: nat, buffer: seq<string>, k: nat, a: seq<string>, first: nat)
    requires c <= d <= |lines| && buffer == lines[c..d] && FenceBefore(lines, c).Closed?
    requires k + |a| <= |buffer| && first == c + k
    ensures ScansAlike(a, buffer, k) <==> ScansAlike(a, lines, first)
  {
    forall i | 0 <= i <= |a| ensures FenceFrom(buffer, k, i) == FenceFrom(lines, first, i) {
      BufferFenceFrom(lines, c, d, buffer, k, first, i);
    }
    SameScan(a, buffer, k, lines, first);
  }

  lemma BufferFenceFrom(lines: seq<string>, c: nat, d: nat, buffer: seq<string>, k: nat, first: nat, i: nat)
    requires c <= d <= |lines| && buffer == lines[c..d] && FenceBefore(lines, c).Closed?
    requires k + i <= |buffer| && first == c + k
    ensures FenceFrom(buffer, k, i) == FenceFrom(lines, first, i)
  {
    var m, p := k + i, first + i;
    RescanFromClosed(lines, c, d, m, p);
  }

  // ----- the documents the parser hands over -----

  /** Stripping only takes white space from both ends of the first visible line. */
  lemma StrippedFirstLine(text: string, a: seq<string>, b: seq<string>, k: nat)
    returns (u: string, v: string, w: string)
    requires Strip(text) != "" && a == SplitLines(Strip(text)) && b == SplitLines(text) && k == BlankLines(b)
    ensures a != [] && k < |b| && v == u + a[0] && b[k] == v + w && Blank(u) && StartsVisibly(a[0])
    ensures FenceMarker(v) == FenceMarker(b[k])
  {
    var n := TrimmedLength(text);
    var t := text[..n];
    LinesOfCut(text, n, t);
    var l := LinesOfDrop(t, Indent(t), Strip(text));
    EndKeepsBlankLines(SplitLines(t), b, a, l);
    u, v, w := TrimmedFirstLine(a, SplitLines(t), b, l);
  }

  lemma TrimmedFirstLine(a: seq<string>, m: seq<string>, b: seq<string>, k: nat)
    returns (u: string, v: string, w: string)
    requires EndTrimmed(m, b) && StartTrimmed(a, m, k)
    ensures k < |b| && v == u + a[0] && b[k] == v + w && Blank(u) && StartsVisibly(a[0])
    ensures FenceMarker(v) == FenceMarker(b[k])
  {
    u :| Blank(u) && m[k] == u + a[0];
    v, w := m[k], "";
    EndKeepsMarkers(m, b, k);
    if k == |m| - 1 {
      w :| Blank(w) && b[k] == m[k] + w;
    } else {
      assert m[..|m| - 1][k] == b[..|m| - 1][k];
      assert v + "" == v;
    }
  }

  lemma HeadingStartsWithMark(line: string) returns (i: nat)
    requires HeadingLevel(line) > 0
    ensures i < |line| && line[i] == '#' && forall j :: 0 <= j < i ==> IsSpace(line[j])
  {
    i := Run(line, 0, {' ', '\t'});
  }

  /** A heading is no fence without its indentation. */
  lemma HeadingIsNoFence(line: string, u: string, v: string, w: string)
    requires HeadingLevel(line) > 0 && line == u + v + w && Blank(u) && StartsVisibly(v)
    ensures FenceMarker(v).NoMarker?
  {
    var i := HeadingStartsWithMark(line);
    assert line[|u|] == v[0];
    assert forall j :: 0 <= j < |u| ==> line[j] == u[j];
    assert v[0] == '#';
  }

  lemma HeadingIsVisible(line: string)
    requires HeadingLevel(line) > 0
    ensures !Blank(line)
  {
    var i := HeadingStartsWithMark(line);
  }

  /** A section after the first starts with its heading. */
  lemma HeadingKept(text: string, a: seq<string>, b: seq<string>, k: nat)
    requires Strip(text) != "" && a == SplitLines(Strip(text)) && b == SplitLines(text) && k == BlankLines(b)
    requires b != [] && HeadingLevel(b[0]) > 0
    ensures a != [] && k < |b| && FirstLineKept(a, b, k)
  {
    var u, v, w := StrippedFirstLine(text, a, b, k);
    HeadingIsVisible(b[0]);
    HeadingIsNoFence(b[k], u, a[0], w);
  }

  lemma NothingBefore(line: string, u: string, v: string)
    requires line == u + v && Blank(u) && StartsVisibly(line)
    ensures u == "" && v == line
  {
    assert forall i :: 0 <= i < |u| ==> line[i] == u[i];
  }

  /** A text that starts with a visible character loses nothing in front. */
  lemma StartKept(text: string, a: seq<string>, b: seq<string>, k: nat)
    requires Strip(text) != "" && a == SplitLines(Strip(text)) && b == SplitLines(text) && k == BlankLines(b)
    requires b != [] && StartsVisibly(b[0])
    ensures a != [] && k < |b| && FirstLineKept(a, b, k)
  {
    var u, v, w := StrippedFirstLine(text, a, b, k);
    assert k == 0;
    assert v != "" && v[0] == b[0][0];
    NothingBefore(v, u, a[0]);
  }

  lemma FirstBufferLine(markdown: string, lines: seq<string>, s: nat)
    requires lines == SplitLines(markdown) && s <= |Headings(lines, |lines|)| && Buffer(lines, s) != []
    ensures 0 < s ==> HeadingLevel(Buffer(lines, s)[0]) > 0
    ensures s == 0 && StartsVisibly(markdown) ==> StartsVisibly(Buffer(lines, s)[0])
  {
    if 0 < s {
      HeadingIsHead(lines, |lines|, s - 1);
    } else {
      LinesNext(markdown, LineEnd(markdown, 0));
    }
  }

  /** Only the text before the first heading can start with a line that is made a fence, and only
      in a document that starts with white space. */
  lemma SectionKeepsFirstLine(markdown: string, lines: seq<string>, s: nat, a: seq<string>, first: nat)
    requires lines == SplitLines(markdown) && s <= |Headings(lines, |lines|)|
    requires Strip(Concat(Buffer(lines, s))) != "" && a == SplitLines(Strip(Concat(Buffer(lines, s))))
    requires first == Bound(lines, s) + BlankLines(Buffer(lines, s))
    ensures a != [] && first + |a| <= |lines|
    ensures 0 < s || StartsVisibly(markdown) ==> FirstLineKept(a, lines, first)
  {
    var buffer, c, d := Buffer(lines, s), Bound(lines, s), Bound(lines, s + 1);
    SectionKeepsFencesIff(markdown, lines, s, a, first);
    LinesOfPart(markdown, c, d, buffer);
    FirstBufferLine(markdown, lines, s);
    if 0 < s {
      HeadingKept(Concat(buffer), a, buffer, BlankLines(buffer));
      BufferKeepsFirstLine(lines, c, d, buffer, BlankLines(buffer), a, first);
    } else if StartsVisibly(markdown) {
      StartKept(Concat(buffer), a, buffer, BlankLines(buffer));
      BufferKeepsFirstLine(lines, c, d, buffer, BlankLines(buffer), a, first);
    }
  }

  lemma {:induction false} LineEndsAt(text: string, i: nat, n: nat)
    requires i <= n < |text| && text[n] == '\n' && forall j :: i <= j < n ==> !IsLineBreak(text[j])
    ensures LineEnd(text, i) == n + 1
    decreases n - i
  {
    if i < n {
      LineEndsAt(text, i + 1, n);
    }
  }

  lemma TwoLines(text: string, a: string, b: string)
    requires a != "" && text == a + b && a[|a| - 1] == '\n' && forall j :: 0 <= j < |a| - 1 ==> !IsLineBreak(a[j])
    requires b != "" && LineEnd(b, 0) == |b|
    ensures SplitLines(text) == [a, b]
  {
    LineEndsAt(text, 0, |a| - 1);
    LinesNext(text, |a|);
    LinesNext(b, |b|);
    assert text[..|a|] == a && text[|a|..] == b && b[..|b|] == b;
  }

  lemma NoNextHeading(lines: seq<string>, i: nat, m: nat)
    requires i < |lines| && m == i + 1 && HeadingLevel(lines[i]) == 0
    ensures Headings(lines, m) == Headings(lines, i)
  {
  }

  lemma NoHeadings(a: string, b: string, lines: seq<string>)
    requires lines == [a, b] && HeadingLevel(a) == 0 && HeadingLevel(b) == 0
    ensures Headings(lines, |lines|) == [] && Buffer(lines, 0) == lines
  {
    NoNextHeading(lines, 0, 1);
    NoNextHeading(lines, 1, 2);
  }

  lemma OnlyIndentation(line: string)
    requires line == "    ```\n"
    ensures FenceMarker(line).NoMarker? && HeadingLevel(line) == 0
    ensures FenceMarker("```\n").Marker? && FenceMarker("x").NoMarker? && HeadingLevel("x") == 0
  {
  }

  lemma {:induction false} IndentIs(text: string, n: nat)
    requires n < |text| && !IsSpace(text[n]) && forall i :: 0 <= i < n ==> IsSpace(text[i])
    ensures Indent(text) == n
  {
    if n > 0 {
      IndentIs(text[1..], n - 1);
    }
  }

  lemma StrippedIndentation(text: string)
    requires text == "    ```\nx"
    ensures Strip(text) == "```\nx"
  {
    assert TrimmedLength(text) == |text| && text[..|text|] == text;
    IndentIs(text, 4);
  }

  lemma FirstLineDecides(lines: seq<string>, a: seq<string>)
    requires |lines| == 2 && |a| == 2 && FenceMarker(lines[1]).NoMarker? && FenceMarker(a[1]).NoMarker?
    ensures Fenced(lines, 1) <==> FenceMarker(lines[0]).Marker?
    ensures Fenced(a, 1) <==> FenceMarker(a[0]).Marker?
  {
    assert FenceBefore(lines, 1) == NextFence(Closed, lines[0]) && FenceBefore(a, 1) == NextFence(Closed, a[0]);
  }

  lemma IndentedFence(text: string, line: string, left: string, first: string, rest: string, lines: seq<string>,
                      a: seq<string>)
    requires text == line + rest && left == first + rest && Strip(text) == left && a == SplitLines(Strip(text))
    requires lines == SplitLines(text) == [line, rest] && SplitLines(left) == [first, rest]
    requires FenceMarker(line).NoMarker? && FenceMarker(first).Marker? && FenceMarker(rest).NoMarker?
    requires HeadingLevel(line) == 0 && HeadingLevel(rest) == 0
    ensures Buffer(lines, 0) == lines && Concat(lines) == text
    ensures Fenced(a, 1) && !Fenced(lines, 1) && !ScansAlike(a, lines, 0)
  {
    NoHeadings(line, rest, lines);
    SplitLinesLosesNothing(text);
    FirstLineDecides(lines, a);
    assert FenceBefore(a, 1) != FenceFrom(lines, 0, 1);
  }

  lemma LinesOfIndented(text: string, line: string, left: string, first: string, rest: string)
    requires text == "    ```\nx" && line == "    ```\n" && left == "```\nx" && first == "```\n" && rest == "x"
    ensures text == line + rest && left == first + rest
    ensures SplitLines(text) == [line, rest] && SplitLines(left) == [first, rest]
  {
    TwoLines(text, line, rest);
    TwoLines(left, first, rest);
  }

  /** `_parse_sections` alone does change the fences of a text that was not stripped: what was
      indented too far to be a fence becomes one, and the line after it counts as code. */
  lemma UnstrippedTextGainsAFence(text: string, lines: seq<string>, a: seq<string>)
    requires text == "    ```\nx" && lines == SplitLines(text) && a == SplitLines(Strip(text))
    ensures |lines| == 2 && |a| == 2 && Concat(Buffer(lines, 0)) == text
    ensures Fenced(a, 1) && !Fenced(lines, 1) && !ScansAlike(a, lines, 0)
  {
    var line, left, first, rest := "    ```\n", "```\nx", "```\n", "x";
    LinesOfIndented(text, line, left, first, rest);
    OnlyIndentation(line);
    StrippedIndentation(text);
    IndentedFence(text, line, left, first, rest, lines, a);
  }

  lemma StrippedStartsVisibly(body: string)
    requires Strip(body) != ""
    ensures StartsVisibly(Strip(body))
  {
    StripEndsVisible(body, body[..TrimmedLength(body)]);
  }

  /** The parser strips the body of a document, so each section of a document keeps its fences. */
  lemma DocumentKeepsFences(body: string, lines: seq<string>, s: nat, a: seq<string>, first: nat)
    requires lines == SplitLines(Strip(body)) && s <= |Headings(lines, |lines|)|
    requires Strip(Concat(Buffer(lines, s))) != "" && a == SplitLines(Strip(Concat(Buffer(lines, s))))
    requires first == Bound(lines, s) + BlankLines(Buffer(lines, s))
    ensures ScansAlike(a, lines, first)
  {
    SectionKeepsFirstLine(Strip(body), lines, s, a, first);
    SectionKeepsFencesIff(Strip(body), lines, s, a, first);
    if lines != [] {
      StrippedStartsVisibly(body);
    }
  }

  /** Every fenced line of a document lies in a fenced block of its section's text, and that
      block lies whole in one range of the splitter, up to leading white space. */
  lemma FencedLineStaysInOneRange(body: string, lines: seq<string>, s: nat, content: string, a: seq<string>,
                                  first: nat, spans: seq<Span>, config: Config, cuts: seq<Span>, j: nat)
      returns (f: Span, i: nat)
    requires lines == SplitLines(Strip(body)) && s <= |Headings(lines, |lines|)|
    requires content == Strip(Concat(Buffer(lines, s))) != "" && a == SplitLines(content)
    requires first == Bound(lines, s) + BlankLines(Buffer(lines, s))
    requires ValidConfig(config) && spans == Spans(a, |a|) && Cuts(content, config, spans, cuts)
    requires j < |a| && first + j < |lines| && Fenced(lines, first + j)
    ensures f in spans && Inside(a, j, f)
    ensures i < |cuts| && cuts[i].start < f.end <= cuts[i].end <= |content|
    ensures f.start < cuts[i].start ==> Blank(content[f.start..cuts[i].start])
  {
    DocumentKeepsFences(body, lines, s, a, first);
    assert FenceBefore(a, j) == FenceFrom(lines, first, j);
    assert FenceBefore(a, j + 1) == FenceFrom(lines, first, j + 1);
    SpansCoverFencedLines(a, |a|, j);
    f :| f in spans && Inside(a, j, f);
    TextSpansAreOrdered(content);
    i := FencesStayWhole(content, config, spans, cuts, f);
  }
}
