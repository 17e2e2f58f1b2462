/** The few `java.lang.String` operations the recipes use, on `seq<char>`. */
module Strings {

  /** `s.startsWith(p)` */
  predicate StartsWith(s: string, p: string) {
    |p| <= |s| && s[..|p|] == p
  }

  /** `s.endsWith(p)` */
  predicate EndsWith(s: string, p: string) {
    |p| <= |s| && s[|s| - |p|..] == p
  }

  /** The longest prefix of `s` whose characters all satisfy `p`. */
  function Span(s: string, p: char -> bool): (r: string)
    ensures StartsWith(s, r)
    ensures forall i :: 0 <= i < |r| ==> p(r[i])
    ensures |r| < |s| ==> !p(s[|r|])
  {
    if s != [] && p(s[0]) then [s[0]] + Span(s[1..], p) else []
  }

  /** A word followed by a character that stops the span is exactly what the span takes. */
  lemma SpanOfWord(w: string, rest: string, p: char -> bool)
    requires forall i :: 0 <= i < |w| ==> p(w[i])
    requires rest == [] || !p(rest[0])
    ensures Span(w + rest, p) == w
  {
    var s := w + rest;
    var r := Span(s, p);
    assert r == s[..|r|] && w == s[..|w|];
  }

  /** `String.join(".", names)` */
  function Join(names: seq<string>, sep: char): (r: string)
    ensures names == [] ==> r == []
  {
    if names == [] then []
    else if |names| == 1 then names[0]
    else names[0] + [sep] + Join(names[1..], sep)
  }

  lemma ConcatAssoc(a: string, b: string, c: string)
    ensures a + (b + c) == (a + b) + c
  {
  }

  lemma SliceSplit(s: string, i: nat, j: nat, k: nat)
    requires i <= j <= k <= |s|
    ensures s[i..k] == s[i..j] + s[j..k]
  {
  }

  lemma SliceOfDrop(s: string, i: nat, j: nat, k: nat)
    requires i <= |s| && j <= k <= |s| - i
    ensures s[i..][j..k] == s[i + j..i + k]
    ensures s[i..][j..] == s[i + j..]
  {
  }

  lemma ConcatSlices(a: string, b: string)
    ensures (a + b)[..|a|] == a && (a + b)[|a|..] == b
  {
  }
}
