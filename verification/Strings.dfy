/** The string helpers that several components share, over ASCII. */
module Strings {
  type Text = seq<char>

  function LowerChar(c: char): (r: char)
    ensures if 'A' <= c <= 'Z' then 'a' <= r <= 'z' && r - 'a' == c - 'A' else r == c
  {
    if 'A' <= c <= 'Z' then c + 32 as char else c
  }

  /** `strings.ToLower`; two texts are equal under `strings.EqualFold` when their lower-case forms are. */
  function Lower(s: Text): (r: Text)
    ensures |r| == |s| && forall i :: 0 <= i < |s| ==> r[i] == LowerChar(s[i])
  {
    seq(|s|, i requires 0 <= i < |s| => LowerChar(s[i]))
  }

  predicate StartsWith(s: Text, p: Text) {
    |p| <= |s| && s[..|p|] == p
  }

  /** `strings.Contains(s, t)`. */
  predicate Contains(s: Text, t: Text) {
    exists i :: 0 <= i <= |s| && StartsWith(s[i..], t)
  }

  predicate Blank(c: char) {
    c == ' ' || '\t' <= c <= '\r'
  }

  function TrimLeft(s: Text): Text {
    if s != [] && Blank(s[0]) then TrimLeft(s[1..]) else s
  }

  function TrimRight(s: Text): Text {
    if s != [] && Blank(s[|s| - 1]) then TrimRight(s[..|s| - 1]) else s
  }

  /** `strings.TrimSpace`. */
  function Trim(s: Text): Text {
    TrimRight(TrimLeft(s))
  }
}
