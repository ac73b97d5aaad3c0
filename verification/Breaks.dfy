/** Which break an oversized piece is cut after: `_boundary` in src/zglab_rag/ingestion/chunking.py. */
module Breaks {
  import opened Numbers
  import opened Splitter
  import opened Text

  /** The kinds of breaks, the strongest first; the wide ones are Chinese punctuation. */
  datatype Break = PARAGRAPH | LINE | WIDE_STOP | STOP | WIDE_CLAUSE | CLAUSE | WORD

  function Strength(b: Break): nat {
    match b
    case PARAGRAPH => 7
    case LINE => 6
    case WIDE_STOP => 5
    case STOP => 4
    case WIDE_CLAUSE => 3
    case CLAUSE => 2
    case WORD => 1
  }

  /** A break of `n` characters stands at `p`: an empty line, the end of a line, of a sentence or
      of a clause, or a space. */
  predicate BreakAt(text: string, b: Break, p: int, n: nat) {
    && 0 <= p && 0 < n && p + n <= |text|
    && match b
       case PARAGRAPH => n == 2 && text[p] == '\n' && text[p + 1] == '\n'
       case LINE => n == 1 && text[p] == '\n'
       case WIDE_STOP => n == 1 && (text[p] == '\U{3002}' || text[p] == '\U{ff01}' || text[p] == '\U{ff1f}')
       case STOP => n == 2 && (text[p] == '.' || text[p] == '!' || text[p] == '?') && text[p + 1] == ' '
       case WIDE_CLAUSE => n == 1 && text[p] == '\U{ff1b}'
       case CLAUSE => n == 2 && text[p] == ';' && text[p + 1] == ' '
       case WORD => n == 1 && text[p] == ' '
  }

  /** The break lies between the middle and the end of the ideal piece, or between that end and the
      end of the longest piece; either end may be passed by one character. */
  predicate Reachable(start: nat, ideal: nat, hard: nat, p: int, n: nat) {
    || (start < p && 2 * (p - start) + 1 >= ideal - start && p + n <= ideal + 1)
    || (ideal <= p && p + n <= hard + 1)
  }

  /** A break of this kind can be reached. */
  ghost predicate Offers(text: string, start: nat, ideal: nat, hard: nat, b: Break) {
    exists p, n :: BreakAt(text, b, p, n) && Reachable(start, ideal, hard, p, n)
  }

  /** The kind of the `k`-th separator. */
  function KindOf(k: nat): Break
    requires k < |SEPARATORS|
  {
    if k == 0 then PARAGRAPH
    else if k == 1 then LINE
    else if k <= 4 then WIDE_STOP
    else if k <= 7 then STOP
    else if k == 8 then WIDE_CLAUSE
    else if k == 9 then CLAUSE
    else WORD
  }

  lemma SeparatorIsBreak(text: string, k: nat, p: int)
    requires k < |SEPARATORS| && MatchAt(text, SEPARATORS[k], p)
    ensures BreakAt(text, KindOf(k), p, |SEPARATORS[k]|)
  {
  }

  lemma BreakIsSeparator(text: string, b: Break, p: int, n: nat) returns (k: nat)
    requires BreakAt(text, b, p, n)
    ensures k < |SEPARATORS| && KindOf(k) == b && |SEPARATORS[k]| == n && MatchAt(text, SEPARATORS[k], p)
  {
    var found := text[p..p + n];
    if n == 1 {
      assert found == [text[p]];
    } else {
      assert found == [text[p], text[p + 1]];
    }
    if b.PARAGRAPH? {
      k := 0;
    } else if b.LINE? {
      k := 1;
    } else if b.WIDE_STOP? {
      k := if text[p] == '\U{3002}' then 2 else if text[p] == '\U{ff01}' then 3 else 4;
    } else if b.STOP? {
      k := if text[p] == '.' then 5 else if text[p] == '!' then 6 else 7;
    } else if b.WIDE_CLAUSE? {
      k := 8;
    } else if b.CLAUSE? {
      k := 9;
    } else {
      k := 10;
    }
  }

  lemma CandidateIff(text: string, start: nat, ideal: nat, hard: nat, k: nat, p: int)
    requires start < ideal <= hard && k < |SEPARATORS|
    ensures WindowAt(text, start, ideal, hard).Candidate(SEPARATORS[k], p)
        <==> MatchAt(text, SEPARATORS[k], p) && Reachable(start, ideal, hard, p, |SEPARATORS[k]|)
  {
  }

  lemma NotOffered(text: string, start: nat, ideal: nat, hard: nat, b: Break)
    requires start < ideal <= hard
    requires forall k :: 0 <= k < |SEPARATORS| && KindOf(k) == b ==>
      WindowAt(text, start, ideal, hard).NoCandidate(SEPARATORS[k])
    ensures !Offers(text, start, ideal, hard, b)
  {
    if Offers(text, start, ideal, hard, b) {
      var p, n :| BreakAt(text, b, p, n) && Reachable(start, ideal, hard, p, n);
      var k := BreakIsSeparator(text, b, p, n);
      CandidateIff(text, start, ideal, hard, k, p);
    }
  }

  function Gap(a: int, b: int): int {
    if a < b then b - a else a - b
  }

  /** The piece ends after the break at `p`, or at the limit: no stronger kind can be reached, and
      no equal break lies nearer to the ideal end, or as near and earlier. */
  ghost predicate CutsAfter(text: string, start: nat, ideal: nat, hard: nat, end: int, b: Break, p: int, n: nat) {
    && BreakAt(text, b, p, n) && Reachable(start, ideal, hard, p, n)
    && end == Min(p + n, hard)
    && (forall stronger :: Strength(stronger) > Strength(b) ==> !Offers(text, start, ideal, hard, stronger))
    && forall q :: MatchAt(text, text[p..p + n], q) && Reachable(start, ideal, hard, q, n) ==>
         Gap(p, ideal) < Gap(q, ideal) || (Gap(p, ideal) == Gap(q, ideal) && p <= q)
  }

  lemma StrongerComeFirst(k: nat, stronger: Break, j: nat)
    requires k < |SEPARATORS| && j < |SEPARATORS| && KindOf(j) == stronger && Strength(stronger) > Strength(KindOf(k))
    ensures j < k
  {
  }

  lemma CutAfterBreak(text: string, start: nat, ideal: nat, hard: nat, end: int, k: nat)
    requires start < ideal <= hard <= |text| && k < |SEPARATORS|
    requires WindowAt(text, start, ideal, hard).CutAfter(k, end)
    ensures exists b, p, n :: CutsAfter(text, start, ideal, hard, end, b, p, n)
  {
    var w, n := WindowAt(text, start, ideal, hard), |SEPARATORS[k]|;
    var p :| w.Nearest(SEPARATORS[k], p) && end == Min(p + n, hard);
    CandidateIff(text, start, ideal, hard, k, p);
    SeparatorIsBreak(text, k, p);
    forall stronger | Strength(stronger) > Strength(KindOf(k)) ensures !Offers(text, start, ideal, hard, stronger) {
      forall j | 0 <= j < |SEPARATORS| && KindOf(j) == stronger ensures w.NoCandidate(SEPARATORS[j]) {
        StrongerComeFirst(k, stronger, j);
      }
      NotOffered(text, start, ideal, hard, stronger);
    }
    forall q | MatchAt(text, text[p..p + n], q) && Reachable(start, ideal, hard, q, n)
      ensures Gap(p, ideal) < Gap(q, ideal) || (Gap(p, ideal) == Gap(q, ideal) && p <= q)
    {
      CandidateIff(text, start, ideal, hard, k, q);
    }
    assert CutsAfter(text, start, ideal, hard, end, KindOf(k), p, n);
  }

  /** The end that `_boundary` chooses: after the nearest break of the strongest kind that can be
      reached, or at the limit when no break can be. */
  lemma StrongestBreakWins(text: string, start: nat, ideal: nat, hard: nat, end: int)
    requires start < ideal <= hard <= |text| && WindowAt(text, start, ideal, hard).Cut(end)
    ensures
      || (end == hard && forall b :: !Offers(text, start, ideal, hard, b))
      || exists b, p, n :: CutsAfter(text, start, ideal, hard, end, b, p, n)
  {
    var w := WindowAt(text, start, ideal, hard);
    if k :| 0 <= k < |SEPARATORS| && w.CutAfter(k, end) {
      CutAfterBreak(text, start, ideal, hard, end, k);
    } else {
      forall b ensures !Offers(text, start, ideal, hard, b) {
        NotOffered(text, start, ideal, hard, b);
      }
    }
  }

  // ----- the ranges of a run -----

  /** A position in a block moves to the block's start, or to its end when the start is not past
      `start`; any other stays. */
  ghost predicate LeavesBlocks(spans: seq<Span>, start: nat, p: int, r: int) {
    && (forall f :: f in spans && f.start < p < f.end ==> r == if f.start > start then f.start else f.end)
    && ((forall f :: f in spans ==> p <= f.start || f.end <= p) ==> r == p)
  }

  lemma MovedLeaves(spans: seq<Span>, n: nat, start: nat, p: int, r: int)
    requires Ordered(spans, n) && Moved(spans, start, p, r)
    ensures LeavesBlocks(spans, start, p, r)
  {
    forall f | f in spans && f.start < p < f.end ensures r == if f.start > start then f.start else f.end {
      assert Within(f, p);
      var g :| g in spans && Within(g, p) && r == if start < g.start then g.start else g.end;
      var i :| 0 <= i < |spans| && spans[i] == f;
      var j :| 0 <= j < |spans| && spans[j] == g;
      assert i == j;
    }
  }

  /** Where the break is that ends a piece: none in a rest that fits. */
  ghost predicate EndsAtBreak(text: string, config: Config, spans: seq<Span>, start: nat, end: nat) {
    var ideal, hard := start + config.targetSize, start + config.maxSize;
    if |text| - start <= config.maxSize then end == |text|
    else
      exists cut: nat ::
        && LeavesBlocks(spans, start, cut, end)
        && ((cut == hard && forall b :: !Offers(text, start, ideal, hard, b))
            || exists b, p, n :: CutsAfter(text, start, ideal, hard, cut, b, p, n))
  }

  /** The next piece starts at the first visible character from the overlap on: `overlap` before
      the end of this one and out of every block, or at that end when this is not past its start. */
  ghost predicate StartsInOverlap(text: string, config: Config, spans: seq<Span>, start: nat, end: nat, next: nat) {
    exists r: nat ::
      && (if end - config.overlap <= start then r == end else LeavesBlocks(spans, start, end - config.overlap, r))
      && r <= next <= end <= |text| && Blank(text[r..next]) && (next < end ==> !IsSpace(text[next]))
  }

  lemma EndRuleEndsAtBreak(text: string, config: Config, spans: seq<Span>, start: nat, end: nat)
    requires ValidConfig(config) && Ordered(spans, |text|) && start < |text| && EndRule(text, config, spans, start, end)
    ensures EndsAtBreak(text, config, spans, start, end)
  {
    if |text| - start > config.maxSize {
      var ideal, hard := start + config.targetSize, start + config.maxSize;
      var cut: nat :| WindowAt(text, start, ideal, hard).Cut(cut) && start < cut <= hard
                      && Moved(spans, start, cut, end);
      StrongestBreakWins(text, start, ideal, hard, cut);
      MovedLeaves(spans, |text|, start, cut, end);
    }
  }

  lemma StartRuleStartsInOverlap(text: string, config: Config, spans: seq<Span>, start: nat, end: nat, next: nat)
    requires Ordered(spans, |text|) && StartRule(text, config, spans, start, end, next)
    ensures StartsInOverlap(text, config, spans, start, end, next)
  {
    var r: nat :| OverlapStart(spans, start, end, config.overlap, r) && r <= end && next == SkipSpace(text, r, end);
    if end - config.overlap > start {
      MovedLeaves(spans, |text|, start, end - config.overlap, r);
    }
  }

  lemma {:induction false} RulesUpTo(text: string, config: Config, spans: seq<Span>, cuts: seq<Span>, next: nat, i: nat)
    requires ValidConfig(config) && CutsUpTo(text, config, spans, cuts, next) && i < |cuts|
    ensures EndRule(text, config, spans, cuts[i].start, cuts[i].end)
    ensures StartRule(text, config, spans, cuts[i].start, cuts[i].end,
                      if i + 1 < |cuts| then cuts[i + 1].start else next)
  {
    var n := |cuts| - 1;
    if i < n {
      RulesUpTo(text, config, spans, cuts[..n], cuts[n].start, i);
    }
  }

  /** In every run each piece ends at the strongest break and the next one starts in its overlap. */
  lemma RangesFollowBreaks(text: string, config: Config, spans: seq<Span>, cuts: seq<Span>, i: nat)
    requires ValidConfig(config) && Ordered(spans, |text|) && Cuts(text, config, spans, cuts) && text != ""
    requires i < |cuts|
    ensures EndsAtBreak(text, config, spans, cuts[i].start, cuts[i].end)
    ensures i + 1 < |cuts| ==> StartsInOverlap(text, config, spans, cuts[i].start, cuts[i].end, cuts[i + 1].start)
  {
    var n := |cuts| - 1;
    WholeRun(text, config, spans, cuts);
    if i < n {
      RulesUpTo(text, config, spans, cuts[..n], cuts[n].start, i);
      StartRuleStartsInOverlap(text, config, spans, cuts[i].start, cuts[i].end, cuts[i + 1].start);
    }
    EndRuleEndsAtBreak(text, config, spans, cuts[i].start, cuts[i].end);
  }
}
