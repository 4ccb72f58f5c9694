/** The pieces of Go's strings package the service relies on: TrimSpace and
    HasPrefix. Strings are sequences of Unicode scalar values. */
module Strings {

  /** unicode.IsSpace: the Latin-1 spaces plus the characters with the
      Unicode White_Space property. */
  predicate IsSpace(c: char) {
    || c == '\t' || c == '\n' || c == '\U{B}' || c == '\U{C}' || c == '\r' || c == ' '
    || c == '\U{85}' || c == '\U{A0}' || c == '\U{1680}'
    || ('\U{2000}' <= c <= '\U{200A}')
    || c == '\U{2028}' || c == '\U{2029}' || c == '\U{202F}' || c == '\U{205F}' || c == '\U{3000}'
  }

  predicate AllSpace(s: string) {
    forall k :: 0 <= k < |s| ==> IsSpace(s[k])
  }

  /** Neither the first nor the last character is white space. */
  predicate NoEdgeSpace(s: string) {
    s == [] || (!IsSpace(s[0]) && !IsSpace(s[|s| - 1]))
  }

  /** Drops the leading white space: the result is a suffix of s, and what
      was dropped is all white space. */
  function TrimLeft(s: string): (r: string)
    ensures |r| <= |s| && r == s[|s| - |r|..]
    ensures forall k :: 0 <= k < |s| - |r| ==> IsSpace(s[k])
    ensures r != [] ==> !IsSpace(r[0])
  {
    if s != [] && IsSpace(s[0]) then TrimLeft(s[1..]) else s
  }

  /** Drops the trailing white space: the result is a prefix of s, and what
      was dropped is all white space. */
  function TrimRight(s: string): (r: string)
    ensures |r| <= |s| && r == s[..|r|]
    ensures forall k :: |r| <= k < |s| ==> IsSpace(s[k])
    ensures r != [] ==> !IsSpace(r[|r| - 1])
  {
    if s != [] && IsSpace(s[|s| - 1]) then TrimRight(s[..|s| - 1]) else s
  }

  /** strings.TrimSpace: the longest infix of s with no white space at
      either end, obtained by dropping only white space. */
  function TrimSpace(s: string): (r: string)
    ensures NoEdgeSpace(r)
    ensures var i := |s| - |TrimLeft(s)|;
      && i + |r| <= |s| && r == s[i..i + |r|]
      && (forall k :: 0 <= k < i ==> IsSpace(s[k]))
      && (forall k :: i + |r| <= k < |s| ==> IsSpace(s[k]))
    ensures r == [] <==> AllSpace(s)
    ensures NoEdgeSpace(s) ==> r == s
  {
    TrimRight(TrimLeft(s))
  }

  /** Trimming twice is trimming once. */
  lemma TrimSpaceIdempotent(s: string)
    ensures TrimSpace(TrimSpace(s)) == TrimSpace(s)
  {
  }

  /** Leading white space is exactly what TrimLeft drops. */
  lemma {:induction false} TrimLeftOfPadded(ws: string, t: string)
    requires AllSpace(ws) && (t == [] || !IsSpace(t[0]))
    ensures TrimLeft(ws + t) == t
  {
    if ws != [] {
      assert (ws + t)[1..] == ws[1..] + t;
      TrimLeftOfPadded(ws[1..], t);
    }
  }

  /** Trailing white space is exactly what TrimRight drops. */
  lemma {:induction false} TrimRightOfPadded(t: string, ws: string)
    requires AllSpace(ws) && (t == [] || !IsSpace(t[|t| - 1]))
    ensures TrimRight(t + ws) == t
  {
    if ws != [] {
      assert (t + ws)[..|t + ws| - 1] == t + ws[..|ws| - 1];
      TrimRightOfPadded(t, ws[..|ws| - 1]);
    }
  }

  /** TrimSpace undoes white-space padding of a string without white space
      at its ends. */
  lemma TrimSpaceOfPadded(before: string, t: string, after: string)
    requires AllSpace(before) && AllSpace(after) && NoEdgeSpace(t)
    ensures TrimSpace(before + t + after) == t
  {
    assert before + t + after == before + (t + after);
    if t == [] {
      TrimLeftOfPadded(before + after, []);
      assert before + after + [] == before + after;
    } else {
      TrimLeftOfPadded(before, t + after);
      TrimRightOfPadded(t, after);
    }
  }

  /** strings.HasPrefix. */
  predicate HasPrefix(s: string, prefix: string) {
    |prefix| <= |s| && s[..|prefix|] == prefix
  }
}
