/** Which text of a document reaches the index: sections and splitter taken together
    (src/zglab_rag/ingestion/chunking.py). */
module DocumentText {
  import opened Text
  import opened Markdown
  import opened Sections
  import opened Splitter

  /** Where buffer `s` starts in the document. */
  ghost function Start(lines: seq<string>, s: nat): nat
    requires s <= |Headings(lines, |lines|)| + 1
  {
    Offset(lines, Bound(lines, s))
  }

  ghost predicate InBuffer(lines: seq<string>, p: nat, s: nat) {
    s <= |Headings(lines, |lines|)| && Start(lines, s) <= p < Start(lines, s) + |Concat(Buffer(lines, s))|
  }

  lemma PartOfConcat(lines: seq<string>, c: nat, d: nat, part: seq<string>)
    requires c <= d <= |lines| && part == lines[c..d]
    ensures Offset(lines, d) == Offset(lines, c) + |Concat(part)| <= |Concat(lines)|
    ensures Concat(lines)[Offset(lines, c)..Offset(lines, c) + |Concat(part)|] == Concat(part)
  {
    var a, e := lines[..c], lines[d..];
    assert lines[..d] == a + part && lines == lines[..d] + e;
    ConcatAppend(a, part);
    ConcatAppend(lines[..d], e);
  }

  lemma BufferInText(lines: seq<string>, s: nat, n: nat, text: string)
    requires s <= |Headings(lines, |lines|)| && n == s + 1 && text == Concat(Buffer(lines, s))
    ensures Start(lines, n) == Start(lines, s) + |text| <= |Concat(lines)|
    ensures Concat(lines)[Start(lines, s)..Start(lines, s) + |text|] == text
  {
    BoundsAscend(lines, s);
    PartOfConcat(lines, Bound(lines, s), Bound(lines, n), Buffer(lines, s));
  }

  lemma {:induction false} BufferUpTo(lines: seq<string>, p: nat, n: nat) returns (s: nat)
    requires n <= |Headings(lines, |lines|)| + 1 && p < Start(lines, n)
    ensures InBuffer(lines, p, s)
  {
    if n > 0 && Start(lines, n - 1) <= p {
      s := n - 1;
      BufferInText(lines, s, n, Concat(Buffer(lines, s)));
    } else {
      s := BufferUpTo(lines, p, n - 1);
    }
  }

  /** Every character of a document lies in a buffer. */
  lemma BufferOf(markdown: string, lines: seq<string>, p: nat) returns (s: nat)
    requires lines == SplitLines(markdown) && p < |markdown|
    ensures InBuffer(lines, p, s)
  {
    SplitLinesLosesNothing(markdown);
    assert lines[..|lines|] == lines;
    s := BufferUpTo(lines, p, |Headings(lines, |lines|)| + 1);
  }

  lemma CharacterOfPart(markdown: string, start: nat, part: string, p: nat, q: nat)
    requires start + |part| <= |markdown| && markdown[start..start + |part|] == part
    requires q < |part| && p == start + q
    ensures markdown[p] == part[q]
  {
    assert markdown[start..start + |part|][q] == markdown[p];
  }

  /** The character at `p` of the document in the text of its buffer. */
  lemma InBufferAt(markdown: string, lines: seq<string>, p: nat, s: nat, start: nat, text: string, q: nat)
    requires lines == SplitLines(markdown) && s <= |Headings(lines, |lines|)| && start == Start(lines, s)
    requires text == Concat(Buffer(lines, s)) && q < |text| && p == start + q
    ensures p < |markdown| && text[q] == markdown[p]
  {
    SplitLinesLosesNothing(markdown);
    BufferInText(lines, s, s + 1, text);
    CharacterOfPart(markdown, start, text, p, q);
  }

  /** What becomes of one buffer: nothing of a section that is dropped, one piece of a section that
      fits, else the pieces of some run of the splitter. */
  ghost predicate SplitInto(sections: seq<Section>, config: Config, cuts: seq<Span>, pieces: seq<string>)
    requires ValidConfig(config)
  {
    if sections == [] then cuts == [] && pieces == []
    else
      var text := sections[0].content;
      if |text| <= config.maxSize then cuts == [Span(0, |text|)] && pieces == [text]
      else
        && Cuts(text, config, Spans(SplitLines(text), |SplitLines(text)|), cuts)
        && InText(text, cuts) && pieces == Pieces(text, cuts)
  }

  /** The character at `k` of a section's text is the `l`-th of the piece made from range `i`. */
  ghost predicate Reaches(text: string, k: nat, cuts: seq<Span>, pieces: seq<string>, i: nat, l: nat) {
    && InPiece(text, cuts, k, i, l) && Piece(text, cuts[i])[0] in pieces
    && l == k - cuts[i].start - Stripped(text[cuts[i].start..cuts[i].end])
  }

  lemma {:induction false} PieceIsListed(text: string, cuts: seq<Span>, i: nat)
    requires InText(text, cuts) && i < |cuts| && |Piece(text, cuts[i])| == 1
    ensures Piece(text, cuts[i])[0] in Pieces(text, cuts)
  {
    if i < |cuts| - 1 {
      PieceIsListed(text, cuts[..|cuts| - 1], i);
    }
  }

  lemma NothingToStrip(text: string)
    requires text != "" && !IsSpace(text[0]) && !IsSpace(text[|text| - 1])
    ensures Strip(text) == text && Stripped(text) == 0
  {
    assert TrimmedLength(text) == |text| && text[..|text|] == text;
    assert Indent(text) == 0;
  }

  lemma WholePiece(text: string, cut: Span, k: nat, cuts: seq<Span>, pieces: seq<string>)
    requires k < |text| && Strip(text) == text && Stripped(text) == 0
    requires cut == Span(0, |text|) && cuts == [cut] && pieces == [text]
    ensures Reaches(text, k, cuts, pieces, 0, k)
  {
    assert text[cut.start..cut.end] == text;
  }

  lemma RunReaches(text: string, config: Config, spans: seq<Span>, k: nat, cuts: seq<Span>, pieces: seq<string>)
      returns (i: nat, l: nat)
    requires ValidConfig(config) && spans == Spans(SplitLines(text), |SplitLines(text)|)
    requires Cuts(text, config, spans, cuts) && InText(text, cuts) && pieces == Pieces(text, cuts)
    requires k < |text| && !IsSpace(text[k])
    ensures Reaches(text, k, cuts, pieces, i, l)
  {
    TextSpansAreOrdered(text);
    i, l := PieceHolds(text, config, spans, cuts, k);
    PieceIsListed(text, cuts, i);
  }

  lemma FlushedIs(path: seq<string>, buffer: seq<string>, text: string)
    requires text == Strip(Concat(buffer)) != ""
    ensures Flushed(path, buffer) == if '\n' in text || !MatchesHeading(text) then [Section(path, text)] else []
  {
    FlushedIff(path, buffer, text);
  }

  lemma KeptIffSplit(text: string, path: seq<string>, sections: seq<Section>, config: Config, cuts: seq<Span>,
                     pieces: seq<string>, k: nat)
    requires ValidConfig(config) && k < |text| && !IsSpace(text[k]) && Strip(text) == text && Stripped(text) == 0
    requires sections == (if '\n' in text || !MatchesHeading(text) then [Section(path, text)] else [])
    requires SplitInto(sections, config, cuts, pieces)
    ensures (exists i, l :: Reaches(text, k, cuts, pieces, i, l)) <==> '\n' in text || !MatchesHeading(text)
  {
    if '\n' in text || !MatchesHeading(text) {
      if |text| <= config.maxSize {
        WholePiece(text, cuts[0], k, cuts, pieces);
      } else {
        var i, l := RunReaches(text, config, Spans(SplitLines(text), |SplitLines(text)|), k, cuts, pieces);
      }
    }
  }

  /** In every document a character that is not white space lies in the text of its section, and
      in a piece of it exactly when that text holds a newline or does not match the heading pattern. */
  lemma VisibleCharacterIsKeptIff(markdown: string, lines: seq<string>, p: nat, s: nat, text: string, path: seq<string>,
                                  config: Config, cuts: seq<Span>, pieces: seq<string>) returns (k: nat)
    requires lines == SplitLines(markdown) && p < |markdown| && !IsSpace(markdown[p]) && InBuffer(lines, p, s)
    requires text == Strip(Concat(Buffer(lines, s))) && ValidConfig(config)
    requires SplitInto(Flushed(path, Buffer(lines, s)), config, cuts, pieces)
    ensures k < |text| && text[k] == markdown[p] && p == Start(lines, s) + Stripped(Concat(Buffer(lines, s))) + k
    ensures (exists i, l :: Reaches(text, k, cuts, pieces, i, l)) <==> '\n' in text || !MatchesHeading(text)
  {
    var all, q := Concat(Buffer(lines, s)), p - Start(lines, s);
    InBufferAt(markdown, lines, p, s, Start(lines, s), all, q);
    k := StripKeeps(all, q);
    StripEndsVisible(all, all[..TrimmedLength(all)]);
    NothingToStrip(text);
    FlushedIs(path, Buffer(lines, s), text);
    KeptIffSplit(text, path, Flushed(path, Buffer(lines, s)), config, cuts, pieces, k);
  }

  lemma HeadingFirst(all: string, rest: string)
    requires all == "# " + rest
    ensures HeadingLevel(all) == 1
  {
    assert all[0] == '#' && all[1] == ' ';
    assert Run(all, 0, {' ', '\t'}) == 0 && Run(all, 1, {'#'}) == 0 && Run(all, 0, {'#'}) == 1;
  }

  lemma TwoLinesConcat(a: string, b: string)
    ensures Concat([a] + [b]) == a + b
  {
    ConcatAppend([a], [b]);
    assert [a][..0] == [] && [b][..0] == [];
    assert Concat([a]) == "" + a && Concat([b]) == "" + b;
  }

  /** A heading whose line does not end in a newline takes its one-line body with it. */
  lemma BodyIsDropped(heading: string, body: string, path: seq<string>)
    requires heading == "# h\U{2028}" && '\n' !in body && body != "" && !IsSpace(body[|body| - 1])
    ensures Flushed(path, [heading] + [body]) == []
  {
    var all, rest := heading + body, "h\U{2028}" + body;
    TwoLinesConcat(heading, body);
    NothingToStrip(all);
    assert all == "# " + rest && '\n' !in all;
    HeadingFirst(all, rest);
    MatchesHeadingIff(all);
    FlushedIs(path, [heading] + [body], all);
  }
}
