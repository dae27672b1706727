/**
 Bytes and the small amount of ASCII text handling the system relies on:
 the line feed delimiter, whitespace trimming, case folding and substring
 search. Non-ASCII text is outside this model (see README).
 */
module Ascii {

  type Byte = b: int | 0 <= b < 256

  const LF: Byte := 0x0A

  /** The ASCII members of Foundation's `whitespacesAndNewlines`: TAB, LF, VT, FF, CR and SPACE. */
  predicate IsWhitespace(b: Byte) {
    (0x09 <= b <= 0x0D) || b == 0x20
  }

  predicate IsAsciiText(s: string) {
    forall i :: 0 <= i < |s| ==> s[i] as int < 128
  }

  predicate IsAsciiBytes(bs: seq<Byte>) {
    forall i :: 0 <= i < |bs| ==> bs[i] < 128
  }

  /** UTF-8 encoding of an ASCII string: one byte per character. */
  function EncodeAscii(s: string): (bs: seq<Byte>)
    requires IsAsciiText(s)
    ensures |bs| == |s|
    ensures forall i :: 0 <= i < |s| ==> bs[i] == s[i] as int
  {
    if s == [] then [] else [s[0] as int as Byte] + EncodeAscii(s[1..])
  }

  /** UTF-8 decoding of a byte string that is pure ASCII: one character per byte. */
  function DecodeAscii(bs: seq<Byte>): (s: string)
    requires IsAsciiBytes(bs)
    ensures |s| == |bs|
    ensures IsAsciiText(s)
    ensures forall i :: 0 <= i < |bs| ==> s[i] as int == bs[i]
  {
    if bs == [] then [] else [bs[0] as char] + DecodeAscii(bs[1..])
  }

  lemma DecodeEncodeAscii(s: string)
    requires IsAsciiText(s)
    ensures DecodeAscii(EncodeAscii(s)) == s
  {
    var d := DecodeAscii(EncodeAscii(s));
    assert |d| == |s|;
    forall i | 0 <= i < |s| ensures d[i] == s[i] {
      assert d[i] as int == s[i] as int;
    }
  }

  /** Encoding the decoding of ASCII bytes gives the bytes back. */
  lemma EncodeDecodeAscii(bs: seq<Byte>)
    requires IsAsciiBytes(bs)
    ensures EncodeAscii(DecodeAscii(bs)) == bs
  {
    var e := EncodeAscii(DecodeAscii(bs));
    assert |e| == |bs|;
    forall i | 0 <= i < |bs| ensures e[i] == bs[i] {
      assert e[i] == DecodeAscii(bs)[i] as int;
    }
  }

  /** Index of the first byte equal to `b`, if any. */
  function IndexOf(bs: seq<Byte>, b: Byte): (r: int)
    ensures -1 <= r < |bs|
    ensures r == -1 <==> b !in bs
    ensures r >= 0 ==> bs[r] == b && b !in bs[..r]
  {
    if bs == [] then -1
    else if bs[0] == b then 0
    else
      var k := IndexOf(bs[1..], b);
      assert bs[1..][..if k < 0 then 0 else k] == bs[1..if k < 0 then 1 else k + 1];
      if k == -1 then -1 else k + 1
  }

  /** Drops leading whitespace bytes. */
  function TrimStart(bs: seq<Byte>): seq<Byte> {
    if bs != [] && IsWhitespace(bs[0]) then TrimStart(bs[1..]) else bs
  }

  /** Drops trailing whitespace bytes. */
  function TrimEnd(bs: seq<Byte>): seq<Byte> {
    if bs != [] && IsWhitespace(bs[|bs| - 1]) then TrimEnd(bs[..|bs| - 1]) else bs
  }

  /** `trimmingCharacters(in: .whitespacesAndNewlines)` on ASCII input. */
  function Trim(bs: seq<Byte>): seq<Byte> {
    TrimEnd(TrimStart(bs))
  }

  /** `TrimStart` removes exactly the longest whitespace prefix. */
  lemma {:induction false} TrimStartSpec(bs: seq<Byte>)
    ensures |TrimStart(bs)| <= |bs| && TrimStart(bs) == bs[|bs| - |TrimStart(bs)|..]
    ensures TrimStart(bs) != [] ==> !IsWhitespace(TrimStart(bs)[0])
    ensures forall i :: 0 <= i < |bs| - |TrimStart(bs)| ==> IsWhitespace(bs[i])
  {
    if bs != [] && IsWhitespace(bs[0]) {
      var t := TrimStart(bs[1..]);
      TrimStartSpec(bs[1..]);
      assert TrimStart(bs) == t;
      assert bs[1..][|bs| - 1 - |t|..] == bs[|bs| - |t|..];
      forall i | 0 <= i < |bs| - |t|
        ensures IsWhitespace(bs[i])
      {
        if i > 0 {
          assert bs[i] == bs[1..][i - 1];
        }
      }
    }
  }

  /** `TrimEnd` removes exactly the longest whitespace suffix. */
  lemma {:induction false} TrimEndSpec(bs: seq<Byte>)
    ensures |TrimEnd(bs)| <= |bs| && TrimEnd(bs) == bs[..|TrimEnd(bs)|]
    ensures TrimEnd(bs) != [] ==> !IsWhitespace(TrimEnd(bs)[|TrimEnd(bs)| - 1])
    ensures forall i :: |TrimEnd(bs)| <= i < |bs| ==> IsWhitespace(bs[i])
  {
    if bs != [] && IsWhitespace(bs[|bs| - 1]) {
      var init := bs[..|bs| - 1];
      var t := TrimEnd(init);
      TrimEndSpec(init);
      assert TrimEnd(bs) == t;
      assert init[..|t|] == bs[..|t|];
      forall i | |t| <= i < |bs|
        ensures IsWhitespace(bs[i])
      {
        if i < |bs| - 1 {
          assert bs[i] == init[i];
        }
      }
    }
  }

  /** Trimming leaves a byte string that neither starts nor ends with whitespace untouched. */
  lemma TrimNoWhitespaceEdges(bs: seq<Byte>)
    requires bs == [] || (!IsWhitespace(bs[0]) && !IsWhitespace(bs[|bs| - 1]))
    ensures Trim(bs) == bs
  {
  }

  /** Surrounding whitespace does not change what a line trims to. */
  lemma {:induction false} TrimIgnoresPadding(pre: seq<Byte>, core: seq<Byte>, post: seq<Byte>)
    requires forall i :: 0 <= i < |pre| ==> IsWhitespace(pre[i])
    requires forall i :: 0 <= i < |post| ==> IsWhitespace(post[i])
    requires core != [] && !IsWhitespace(core[0]) && !IsWhitespace(core[|core| - 1])
    ensures Trim(pre + core + post) == core
    decreases |pre| + |post|
  {
    if pre != [] {
      assert (pre + core + post)[1..] == pre[1..] + core + post;
      TrimIgnoresPadding(pre[1..], core, post);
    } else if post != [] {
      var p' := post[..|post| - 1];
      assert (pre + core + post)[..|pre + core + post| - 1] == pre + core + p';
      TrimIgnoresPadding(pre, core, p');
      TrimEndStops(core + p', post[|post| - 1]);
      assert pre + core + post == (core + p') + [post[|post| - 1]];
      assert TrimStart(pre + core + post) == pre + core + post;
    } else {
      assert pre + core + post == core;
    }
  }

  lemma TrimEndStops(bs: seq<Byte>, w: Byte)
    requires IsWhitespace(w)
    ensures TrimEnd(bs + [w]) == TrimEnd(bs)
  {
    assert (bs + [w])[..|bs + [w]| - 1] == bs;
  }

  function ToLower(c: char): (r: char)
    ensures 'A' <= c <= 'Z' ==> r as int == c as int + 32
    ensures !('A' <= c <= 'Z') ==> r == c
  {
    if 'A' <= c <= 'Z' then (c as int + 32) as char else c
  }

  /** `needle` occurs in `hay` at position `i` up to ASCII case. */
  predicate MatchesAt(hay: string, needle: string, i: int) {
    && 0 <= i && i + |needle| <= |hay|
    && forall k :: 0 <= k < |needle| ==> ToLower(hay[i + k]) == ToLower(needle[k])
  }

  /**
   ASCII-case-insensitive substring test, the model of Foundation's
   `localizedCaseInsensitiveContains` restricted to ASCII.
   */
  function ContainsIgnoringCase(hay: string, needle: string): (r: bool)
    ensures r <==> exists i :: MatchesAt(hay, needle, i)
    decreases |hay|
  {
    if |hay| < |needle| then
      assert forall i :: !MatchesAt(hay, needle, i);
      false
    else if MatchesAt(hay, needle, 0) then
      true
    else
      var rest := ContainsIgnoringCase(hay[1..], needle);
      if rest then
        var j :| MatchesAt(hay[1..], needle, j);
        assert MatchesAt(hay, needle, j + 1);
        true
      else
        forall i | 1 <= i && MatchesAt(hay, needle, i) ensures MatchesAt(hay[1..], needle, i - 1) {
        }
        false
  }
}
