/** Text helpers: Foundation's `whitespacesAndNewlines` character set and
    trimming by it. */
module Text {

  /** Unicode general category Z (space, line and paragraph separators),
      the controls U+0009 to U+000D, and U+0085 (next line). */
  predicate IsWhitespaceOrNewline(c: char)
  {
    c == ' ' || ('\t' <= c <= '\r') || c == '\U{85}' || c == '\U{A0}' ||
    c == '\U{1680}' || ('\U{2000}' <= c <= '\U{200A}') ||
    c == '\U{2028}' || c == '\U{2029}' || c == '\U{202F}' ||
    c == '\U{205F}' || c == '\U{3000}'
  }

  predicate AllWhitespace(s: string)
  {
    forall i :: 0 <= i < |s| ==> IsWhitespaceOrNewline(s[i])
  }

  /** Drops the leading whitespace and newlines. */
  function TrimLeading(s: string): (r: string)
    ensures |r| <= |s| && r == s[|s| - |r|..]
    ensures AllWhitespace(s[..|s| - |r|])
    ensures r != [] ==> !IsWhitespaceOrNewline(r[0])
  {
    if s != [] && IsWhitespaceOrNewline(s[0]) then
      var r := TrimLeading(s[1..]);
      assert s[..|s| - |r|] == [s[0]] + s[1..][..|s| - 1 - |r|];
      r
    else s
  }

  /** Drops the trailing whitespace and newlines. */
  function TrimTrailing(s: string): (r: string)
    ensures |r| <= |s| && r == s[..|r|]
    ensures AllWhitespace(s[|r|..])
    ensures r != [] ==> !IsWhitespaceOrNewline(r[|r| - 1])
  {
    if s != [] && IsWhitespaceOrNewline(s[|s| - 1]) then
      var r := TrimTrailing(s[..|s| - 1]);
      assert s[|r|..] == s[..|s| - 1][|r|..] + [s[|s| - 1]];
      r
    else s
  }

  /** `trimmingCharacters(in: .whitespacesAndNewlines)`: the input with its
      leading and trailing whitespace and newlines removed. */
  function Trim(s: string): string
  {
    TrimTrailing(TrimLeading(s))
  }

  /** `t` is the slice `s[i..j]` and everything of `s` around it is
      whitespace. */
  predicate TrimmedSlice(s: string, t: string, i: nat, j: nat)
  {
    i <= j <= |s| && t == s[i..j] && AllWhitespace(s[..i]) && AllWhitespace(s[j..])
  }

  /** Trimming keeps a contiguous middle part of the input, everything it
      cuts away is whitespace, and what is left starts and ends with a
      character that is not. */
  lemma TrimSpec(s: string)
    ensures exists i: nat, j: nat :: TrimmedSlice(s, Trim(s), i, j)
    ensures Trim(s) != [] ==>
      !IsWhitespaceOrNewline(Trim(s)[0]) && !IsWhitespaceOrNewline(Trim(s)[|Trim(s)| - 1])
  {
    var l := TrimLeading(s);
    var r := TrimTrailing(l);
    MiddleSlice(s, l, r);
    assert Trim(s) == r;
    assert TrimmedSlice(s, r, |s| - |l|, |s| - |l| + |r|);
  }

  /** A prefix of a suffix is a middle slice, and what follows it is the
      rest of the suffix. */
  lemma MiddleSlice(s: string, l: string, r: string)
    requires |l| <= |s| && l == s[|s| - |l|..]
    requires |r| <= |l| && r == l[..|r|]
    ensures r == s[|s| - |l|..|s| - |l| + |r|]
    ensures s[|s| - |l| + |r|..] == l[|r|..]
  {
  }

  /** A string is emptied by trimming exactly when it is all whitespace. */
  lemma TrimEmptyIff(s: string)
    ensures Trim(s) == [] <==> AllWhitespace(s)
  {
    var l := TrimLeading(s);
    var n := |s| - |l|;
    if Trim(s) == [] {
      assert l[0..] == l;
      assert l == [];
      assert s[..n] == s;
    } else {
      var t := TrimTrailing(l);
      assert t[0] == l[0] == s[n];
    }
  }

  /** Trimming a trimmed string changes nothing. */
  lemma TrimIdempotent(s: string)
    ensures Trim(Trim(s)) == Trim(s)
  {
    TrimSpec(s);
  }
}
