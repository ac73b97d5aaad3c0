/** Where `str.splitlines` starts a new line, said of the characters alone. */
module LineLaws {
  import opened Markdown

  /** A line ends with this character. */
  predicate Ends(c: char) {
    || c == '\U{a}' || c == '\U{b}' || c == '\U{c}' || c == '\U{d}' || c == '\U{1c}' || c == '\U{1d}' || c == '\U{1e}'
    || c == '\U{85}' || c == '\U{2028}' || c == '\U{2029}'
  }

  /** A new line starts at `p`: after a line break, but not inside a carriage return and line feed. */
  predicate BreakBefore(text: string, p: int) {
    0 < p < |text| && Ends(text[p - 1]) && !(text[p - 1] == '\r' && text[p] == '\n')
  }

  lemma {:induction false} LineEndIsFirst(text: string, i: nat)
    requires i < |text|
    ensures forall p :: i < p < LineEnd(text, i) ==> !BreakBefore(text, p)
    ensures LineEnd(text, i) == |text| || BreakBefore(text, LineEnd(text, i))
    decreases |text| - i
  {
    if !IsLineBreak(text[i]) && i + 1 < |text| {
      LineEndIsFirst(text, i + 1);
    }
  }

  /** The first `k` lines are `p` characters long. */
  ghost predicate StartsAt(lines: seq<string>, p: int) {
    exists k :: 0 <= k <= |lines| && |Concat(lines[..k])| == p
  }

  lemma LengthOfFirst(line: string, rest: seq<string>, k: nat)
    requires k <= |rest|
    ensures ([line] + rest)[..k + 1] == [line] + rest[..k]
    ensures |Concat(([line] + rest)[..k + 1])| == |line| + |Concat(rest[..k])|
  {
    assert ([line] + rest)[..k + 1] == [line] + rest[..k];
    ConcatAppend([line], rest[..k]);
    assert [line][..0] == [] && Concat([line]) == line;
  }

  lemma StartsInRest(line: string, rest: seq<string>, p: int)
    ensures StartsAt([line] + rest, p) <==> p == 0 || StartsAt(rest, p - |line|)
  {
    var lines := [line] + rest;
    assert lines[..0] == [];
    if StartsAt(lines, p) {
      var k :| 0 <= k <= |lines| && |Concat(lines[..k])| == p;
      if k > 0 {
        LengthOfFirst(line, rest, k - 1);
      }
    }
    if StartsAt(rest, p - |line|) {
      var k :| 0 <= k <= |rest| && |Concat(rest[..k])| == p - |line|;
      LengthOfFirst(line, rest, k);
      assert |Concat(lines[..k + 1])| == p;
    }
  }

  /** Lines start at the beginning of a text and where a line break ends, and nowhere else. */
  lemma {:induction false} LinesStartAfterBreaks(text: string, p: int)
    requires 0 <= p < |text|
    ensures StartsAt(SplitLines(text), p) <==> p == 0 || BreakBefore(text, p)
    decreases |text|
  {
    var end := LineEnd(text, 0);
    var line, rest := text[..end], text[end..];
    LineEndIsFirst(text, 0);
    StartsInRest(line, SplitLines(rest), p);
    if p > end {
      LinesStartAfterBreaks(rest, p - end);
      assert rest[p - end - 1] == text[p - 1] && rest[p - end] == text[p];
    } else if p == end {
      assert SplitLines(rest)[..0] == [];
      assert StartsAt(SplitLines(rest), 0);
    }
  }
}
