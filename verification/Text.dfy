/** Python string operations the modelled code relies on.  A `char` is one code point. */
module Text {

  // ----- searching: str.find and str.rfind over a half-open range -----

  predicate MatchAt(text: string, pattern: string, i: int) {
    0 <= i && i + |pattern| <= |text| && text[i..i + |pattern|] == pattern
  }

  /** The lowest match inside `text[lo..hi]`, or -1. */
  function Find(text: string, pattern: string, lo: nat, hi: int): (i: int)
    ensures i == -1 || (lo <= i && i + |pattern| <= hi && MatchAt(text, pattern, i))
    ensures forall j :: lo <= j && j + |pattern| <= hi && MatchAt(text, pattern, j) ==> 0 <= i <= j
    decreases hi - lo
  {
    if lo + |pattern| > hi || lo + |pattern| > |text| then -1
    else if MatchAt(text, pattern, lo) then lo
    else Find(text, pattern, lo + 1, hi)
  }

  /** The highest match inside `text[lo..hi]`, or -1. */
  function RFind(text: string, pattern: string, lo: nat, hi: int): (i: int)
    ensures i == -1 || (lo <= i && i + |pattern| <= hi && MatchAt(text, pattern, i))
    ensures forall j :: lo <= j && j + |pattern| <= hi && MatchAt(text, pattern, j) ==> j <= i
    decreases hi - lo
  {
    if lo + |pattern| > hi then -1
    else if MatchAt(text, pattern, hi - |pattern|) then hi - |pattern|
    else RFind(text, pattern, lo, hi - 1)
  }

  // ----- white space: str.isspace and str.strip -----

  predicate IsSpace(c: char) {
    || '\U{9}' <= c <= '\U{d}' || '\U{1c}' <= c <= ' ' || c == '\U{85}' || c == '\U{a0}' || c == '\U{1680}'
    || '\U{2000}' <= c <= '\U{200a}' || c == '\U{2028}' || c == '\U{2029}' || c == '\U{202f}' || c == '\U{205f}'
    || c == '\U{3000}'
  }

  predicate Blank(s: string) {
    forall i :: 0 <= i < |s| ==> IsSpace(s[i])
  }

  /** The number of leading white-space characters. */
  function Indent(s: string): (n: nat)
    ensures n <= |s| && Blank(s[..n]) && (n < |s| ==> !IsSpace(s[n]))
  {
    if s == [] || !IsSpace(s[0]) then 0
    else
      var n := 1 + Indent(s[1..]);
      assert s[..n] == [s[0]] + s[1..][..n - 1];
      n
  }

  /** The length without trailing white space. */
  function TrimmedLength(s: string): (n: nat)
    ensures n <= |s| && Blank(s[n..]) && (0 < n ==> !IsSpace(s[n - 1]))
  {
    if s == [] || !IsSpace(s[|s| - 1]) then |s|
    else
      var n := TrimmedLength(s[..|s| - 1]);
      assert s[n..] == s[..|s| - 1][n..] + [s[|s| - 1]];
      n
  }

  function Strip(s: string): (r: string)
  {
    var t := s[..TrimmedLength(s)];
    t[Indent(t)..]
  }

  /** Stripping removes white space at both ends and nothing else. */
  lemma StripRemovesOnlySpace(s: string) returns (before: string, after: string)
    ensures s == before + Strip(s) + after && Blank(before) && Blank(after) && |before| == Stripped(s)
    ensures Strip(s) == "" <==> Blank(s)
    ensures Strip(s) != "" ==> !IsSpace(Strip(s)[0]) && !IsSpace(Strip(s)[|Strip(s)| - 1])
  {
    var n := TrimmedLength(s);
    var t := s[..n];
    before, after := t[..Indent(t)], s[n..];
    StripIsInside(s, t, before, after);
    StripIsEmpty(s, t, before, after);
    StripEndsVisible(s, t);
  }

  lemma StripIsInside(s: string, t: string, before: string, after: string)
    requires t == s[..TrimmedLength(s)] && before == t[..Indent(t)] && after == s[TrimmedLength(s)..]
    ensures s == before + Strip(s) + after && Blank(before) && Blank(after)
  {
    assert s == t + after && t == before + Strip(s);
  }

  lemma StripIsEmpty(s: string, t: string, before: string, after: string)
    requires t == s[..TrimmedLength(s)]
    requires s == before + Strip(s) + after && Blank(before) && Blank(after)
    ensures Strip(s) == "" <==> Blank(s)
  {
    if Strip(s) != "" {
      assert !IsSpace(s[|before|]) by {
        StripEndsVisible(s, t);
      }
    }
  }

  lemma StripEndsVisible(s: string, t: string)
    requires t == s[..TrimmedLength(s)]
    ensures Strip(s) != "" ==> !IsSpace(Strip(s)[0]) && !IsSpace(Strip(s)[|Strip(s)| - 1])
  {
    if Strip(s) != "" {
      assert Strip(s)[0] == t[Indent(t)] == s[Indent(t)];
      assert Strip(s)[|Strip(s)| - 1] == s[TrimmedLength(s) - 1];
    }
  }

  /** How many leading characters stripping removes. */
  function Stripped(s: string): nat {
    Indent(s[..TrimmedLength(s)])
  }

  /** Every character that is not white space survives stripping, at its place. */
  lemma StripKeeps(s: string, p: nat) returns (k: nat)
    requires p < |s| && !IsSpace(s[p])
    ensures k < |Strip(s)| && Strip(s)[k] == s[p] && k == p - Stripped(s)
  {
    var before, after := StripRemovesOnlySpace(s);
    assert p >= |before|;
    assert s[|before| + |Strip(s)|..] == after;
    k := p - |before|;
  }

  // ----- UTF-8 (section 3 of RFC 3629) -----

  function Utf8Width(c: char): (n: nat)
    ensures 1 <= n <= 4
  {
    if c < '\U{80}' then 1 else if c < '\U{800}' then 2 else if c < '\U{10000}' then 3 else 4
  }

  /** len(s.encode("utf-8")) */
  function Bytes(s: string): (n: nat)
    ensures |s| <= n <= 4 * |s|
  {
    if s == [] then 0 else Bytes(s[..|s| - 1]) + Utf8Width(s[|s| - 1])
  }

  lemma {:induction false} BytesConcat(a: string, b: string)
    ensures Bytes(a + b) == Bytes(a) + Bytes(b)
  {
    if b == [] {
      assert a + b == a;
    } else {
      BytesConcat(a, b[..|b| - 1]);
      assert (a + b)[..|a + b| - 1] == a + b[..|b| - 1];
    }
  }

  lemma BytesOfPrefix(s: string, t: string)
    requires s <= t
    ensures |s| <= |t| && Bytes(s) <= Bytes(t)
  {
    assert t == s + t[|s|..];
    BytesConcat(s, t[|s|..]);
  }
}
