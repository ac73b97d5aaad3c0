/** The bytes of a text: UTF-8 as section 3 of RFC 3629 lays it out.  A lone surrogate, which
    Python's `encode` refuses, is not a `char`. */
module Utf8 {
  import opened Text
  import Seqs

  /** A byte that continues a character, holding six bits. */
  function Tail(bits: int): int {
    128 + bits % 64
  }

  /** The bytes of one character. */
  function Encode(c: char): (bytes: seq<int>)
    ensures 1 <= |bytes| <= 4
  {
    var n := c as int;
    if n < 128 then [n]
    else if n < 2048 then [192 + n / 64, Tail(n)]
    else if n < 65536 then [224 + n / 4096, Tail(n / 64), Tail(n)]
    else [240 + n / 262144, Tail(n / 4096), Tail(n / 64), Tail(n)]
  }

  /** The first byte tells how many there are. */
  function Length(first: int): nat {
    if first < 192 then 1 else if first < 224 then 2 else if first < 240 then 3 else 4
  }

  /** The number that the bytes spell. */
  function Decode(bytes: seq<int>): int
    requires bytes != []
  {
    if |bytes| == 1 then bytes[0]
    else if |bytes| == 2 then (bytes[0] - 192) * 64 + (bytes[1] - 128)
    else if |bytes| == 3 then (bytes[0] - 224) * 4096 + (bytes[1] - 128) * 64 + (bytes[2] - 128)
    else if |bytes| == 4 then
      (bytes[0] - 240) * 262144 + (bytes[1] - 128) * 4096 + (bytes[2] - 128) * 64 + (bytes[3] - 128)
    else -1
  }

  lemma DecodeEncode(c: char)
    ensures Decode(Encode(c)) == c as int
    ensures forall b :: b in Encode(c) ==> 0 <= b < 256
    ensures Length(Encode(c)[0]) == |Encode(c)| == Utf8Width(c)
  {
    var n := c as int;
    assert n / 4096 == n / 64 / 64 && n / 262144 == n / 64 / 64 / 64;
  }

  function EncodeAll(s: string): seq<int> {
    if s == "" then [] else Encode(s[0]) + EncodeAll(s[1..])
  }

  /** Reading the characters back, one after the other. */
  function DecodeAll(bytes: seq<int>): seq<int> {
    if bytes == [] || |bytes| < Length(bytes[0]) then []
    else [Decode(bytes[..Length(bytes[0])])] + DecodeAll(bytes[Length(bytes[0])..])
  }

  /** The code points of a text. */
  function Codes(s: string): (r: seq<int>)
    ensures |r| == |s|
  {
    seq(|s|, i requires 0 <= i < |s| => s[i] as int)
  }

  lemma OneBytes(c: char)
    ensures Bytes([c]) == Utf8Width(c)
  {
    assert [c][..0] == "";
  }

  /** `Bytes` counts the bytes of the encoding, and no text is lost in it. */
  lemma {:induction false} BytesAreEncoded(s: string)
    ensures |EncodeAll(s)| == Bytes(s)
    ensures DecodeAll(EncodeAll(s)) == Codes(s)
  {
    if s != "" {
      var c, rest := s[0], s[1..];
      BytesAreEncoded(rest);
      DecodeEncode(c);
      OneBytes(c);
      BytesConcat([c], rest);
      assert s == [c] + rest;
      Seqs.DropPrefix(Encode(c), EncodeAll(rest));
      assert Codes(s) == [c as int] + Codes(rest);
    }
  }
}
