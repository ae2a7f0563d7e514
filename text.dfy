/**
 The two string operations the row parser relies on: trimming white space
 from both ends of a column (Go's strings.TrimSpace) and gluing the columns
 of a malformed row together without a separator (the `originString += col`
 loop). Strings are sequences of Unicode code points; the UTF-8 decoding that
 Go performs on its byte strings is not modelled.
 */
module Text {

  /** The Unicode White_Space property, as the ranges of Go's
      unicode.White_Space table. */
  predicate InWhiteSpaceTable(c: char) {
    ('\t' <= c <= '\r') || c == ' ' || c == '\U{0085}' || c == '\U{00A0}'
    || c == '\U{1680}' || ('\U{2000}' <= c <= '\U{200A}')
    || ('\U{2028}' <= c <= '\U{2029}') || c == '\U{202F}' || c == '\U{205F}' || c == '\U{3000}'
  }

  /** Go's unicode.IsSpace: within Latin-1 a fixed list of eight characters,
      above it a lookup in the White_Space table. The Latin-1 fast path
      answers exactly as the table does. */
  function IsSpace(c: char): (b: bool)
    ensures b <==> InWhiteSpaceTable(c)
  {
    if c <= '\U{00FF}' then
      c == '\t' || c == '\n' || c == '\U{000B}' || c == '\U{000C}' || c == '\r' || c == ' '
      || c == '\U{0085}' || c == '\U{00A0}'
    else
      InWhiteSpaceTable(c)
  }

  /** Every character of s is white space. */
  predicate AllSpace(s: string) {
    forall i :: 0 <= i < |s| ==> IsSpace(s[i])
  }

  /** s neither starts nor ends with white space. */
  predicate IsTrimmed(s: string) {
    |s| > 0 ==> !IsSpace(s[0]) && !IsSpace(s[|s| - 1])
  }

  /** Length of the white-space run at the start of s. */
  function TrimStart(s: string): (lo: nat)
    ensures lo <= |s|
    ensures forall i :: 0 <= i < lo ==> IsSpace(s[i])
    ensures lo < |s| ==> !IsSpace(s[lo])
  {
    if |s| > 0 && IsSpace(s[0]) then 1 + TrimStart(s[1..]) else 0
  }

  /** Index where the white-space run at the end of s begins. */
  function TrimEnd(s: string): (hi: nat)
    ensures hi <= |s|
    ensures forall i :: hi <= i < |s| ==> IsSpace(s[i])
    ensures 0 < hi ==> !IsSpace(s[hi - 1])
  {
    if |s| > 0 && IsSpace(s[|s| - 1]) then TrimEnd(s[..|s| - 1]) else |s|
  }

  /** strings.TrimSpace: drop the leading white space, then the trailing
      white space of what is left. */
  function TrimSpace(s: string): (t: string)
    ensures |t| <= |s|
    ensures IsTrimmed(t)
  {
    var rest := s[TrimStart(s)..];
    rest[..TrimEnd(rest)]
  }

  /** t is the part of s left after cutting a white-space run off each end,
      the leading run being the longest one. */
  predicate IsWindowTrim(t: string, s: string) {
    var lo := TrimStart(s);
    lo + |t| <= |s| && t == s[lo..lo + |t|] && AllSpace(s[..lo]) && AllSpace(s[lo + |t|..])
  }

  /** TrimSpace(s) is a window of s that cuts off only white space. */
  lemma TrimSpaceWindow(s: string)
    ensures IsWindowTrim(TrimSpace(s), s)
  {
    var lo := TrimStart(s);
    var rest := s[lo..];
    var hi := TrimEnd(rest);
    assert TrimSpace(s) == rest[..hi];
    assert rest[..hi] == s[lo..lo + hi];
    var tail := s[lo + hi..];
    assert tail == rest[hi..];
    assert AllSpace(tail);
  }

  /** Independent characterisation: any window of s that cuts off only white
      space and is itself trimmed is exactly TrimSpace(s). */
  lemma TrimSpaceUnique(s: string, lo: nat, hi: nat)
    requires lo <= hi <= |s|
    requires AllSpace(s[..lo]) && AllSpace(s[hi..])
    requires IsTrimmed(s[lo..hi])
    ensures TrimSpace(s) == s[lo..hi]
  {
    var start := TrimStart(s);
    var rest := s[start..];
    var end := TrimEnd(rest);
    if lo == hi {
      // s is all white space
      forall i | 0 <= i < |s| ensures IsSpace(s[i]) {
        if i < lo { assert s[..lo][i] == s[i]; } else { assert s[hi..][i - hi] == s[i]; }
      }
      assert start == |s|;
    } else {
      assert forall i :: 0 <= i < lo ==> s[..lo][i] == s[i];
      assert s[lo..hi][0] == s[lo];
      assert start == lo;
      assert s[lo..hi][hi - lo - 1] == s[hi - 1];
      assert forall i :: hi <= i < |s| ==> s[hi..][i - hi] == s[i];
      assert rest == s[lo..hi] + s[hi..];
      assert end == hi - lo;
    }
  }

  /** A string with no white space at either end is left as it is. */
  lemma TrimSpaceOfTrimmed(s: string)
    requires IsTrimmed(s)
    ensures TrimSpace(s) == s
  {
    assert s[..0] == [] && s[|s|..] == [];
    TrimSpaceUnique(s, 0, |s|);
    assert s[0..|s|] == s;
  }

  /** Trimming twice is trimming once. */
  lemma TrimSpaceIdempotent(s: string)
    ensures TrimSpace(TrimSpace(s)) == TrimSpace(s)
  {
    TrimSpaceOfTrimmed(TrimSpace(s));
  }

  /** The total number of characters in the columns. */
  function TotalLength(cols: seq<string>): nat {
    if cols == [] then 0 else |cols[0]| + TotalLength(cols[1..])
  }

  /** The columns of a row glued together in order, with no separator: the
      result is exactly as long as the columns together. */
  function Concat(cols: seq<string>): (r: string)
    ensures |r| == TotalLength(cols)
  {
    if cols == [] then "" else cols[0] + Concat(cols[1..])
  }

  /** Gluing distributes over joining the column lists. */
  lemma {:induction false} ConcatAppend(a: seq<string>, b: seq<string>)
    ensures Concat(a + b) == Concat(a) + Concat(b)
  {
    if a == [] {
      assert a + b == b;
    } else {
      assert (a + b)[1..] == a[1..] + b;
      ConcatAppend(a[1..], b);
    }
  }

  /** Column i of a row can be read back from the glued string: it sits right
      after the glue of the columns before it. */
  lemma ConcatColumnAt(cols: seq<string>, i: nat)
    requires i < |cols|
    ensures |Concat(cols[..i])| + |cols[i]| <= |Concat(cols)|
    ensures Concat(cols)[|Concat(cols[..i])|..|Concat(cols[..i])| + |cols[i]|] == cols[i]
  {
    assert cols == cols[..i] + cols[i..];
    ConcatAppend(cols[..i], cols[i..]);
    assert Concat(cols[i..]) == cols[i] + Concat(cols[i + 1..]);
  }
}
