/** ASCII character classes and greedy scanning shared by the lexer and the parser. */
module Chars {

  predicate IsDigit(c: char) {
    '0' <= c <= '9'
  }

  predicate IsLetter(c: char) {
    'a' <= c <= 'z' || 'A' <= c <= 'Z'
  }

  predicate IsAlphanumeric(c: char) {
    IsLetter(c) || IsDigit(c)
  }

  /** Characters a number literal is made of. */
  predicate IsNumeralChar(c: char) {
    IsDigit(c) || c == '.'
  }

  /** Rust's `char::is_whitespace` restricted to ASCII: tab, line feed,
      vertical tab, form feed, carriage return and space. */
  predicate IsWhitespace(c: char) {
    c == ' ' || '\t' <= c <= '\r'
  }

  /** Length of the longest prefix of `s` all of whose characters satisfy `p`:
      the number of characters a greedy peek-and-take loop consumes. */
  function Span(s: string, p: char -> bool): (n: nat)
    ensures n <= |s|
    ensures forall i :: 0 <= i < n ==> p(s[i])
    ensures n == |s| || !p(s[n])
  {
    if |s| > 0 && p(s[0]) then 1 + Span(s[1..], p) else 0
  }

  /** A greedy run over `a + t` stops exactly at the end of `a` when every
      character of `a` qualifies and `t` does not start with one that does. */
  lemma SpanOfConcat(a: string, t: string, p: char -> bool)
    requires forall i :: 0 <= i < |a| ==> p(a[i])
    requires |t| == 0 || !p(t[0])
    ensures Span(a + t, p) == |a|
  {
    assert forall i :: 0 <= i < |a| ==> (a + t)[i] == a[i];
    assert |t| > 0 ==> (a + t)[|a|] == t[0];
  }

  /** The input left after a `skip_whitespace` loop. */
  function SkipWhitespace(s: string): (r: string)
    ensures |r| <= |s| && IsSuffix(r, s)
    ensures |r| == 0 || !IsWhitespace(r[0])
    ensures forall i :: 0 <= i < |s| - |r| ==> IsWhitespace(s[i])
    decreases |s|
  {
    if |s| > 0 && IsWhitespace(s[0]) then SkipWhitespace(s[1..]) else s
  }

  lemma SkipNoWhitespace(s: string)
    requires |s| == 0 || !IsWhitespace(s[0])
    ensures SkipWhitespace(s) == s
  {
  }

  lemma SkipAllWhitespace(s: string)
    requires forall i :: 0 <= i < |s| ==> IsWhitespace(s[i])
    ensures SkipWhitespace(s) == []
  {
  }

  /** `t` is what is left of `s` after some characters are taken from its
      front. */
  predicate IsSuffix(t: string, s: string)
    decreases |s|
  {
    if |t| >= |s| then t == s else IsSuffix(t, s[1..])
  }

  /** The suffix relation is the one of the explicit slice. */
  lemma {:induction false} SuffixSlice(t: string, s: string)
    ensures IsSuffix(t, s) <==> |t| <= |s| && t == s[|s| - |t|..]
    decreases |s|
  {
    if |t| < |s| {
      SuffixSlice(t, s[1..]);
      assert s[1..][|s[1..]| - |t|..] == s[|s| - |t|..];
    }
  }

  /** Dropping the first `n` characters leaves a suffix. */
  lemma {:induction false} DropSuffix(s: string, n: nat)
    requires n <= |s|
    ensures IsSuffix(s[n..], s)
    decreases n
  {
    if n > 0 {
      DropSuffix(s[1..], n - 1);
      assert s[1..][n - 1..] == s[n..];
    }
  }

  /** A suffix of a suffix is a suffix. */
  lemma {:induction false} SuffixOfSuffix(s: string, t: string, u: string)
    requires IsSuffix(t, s) && IsSuffix(u, t)
    ensures IsSuffix(u, s)
    decreases |s|
  {
    SuffixSlice(t, s);
    SuffixSlice(u, t);
    if |t| < |s| {
      SuffixOfSuffix(s[1..], t, u);
    }
  }

  /** Appending or prepending the empty string changes nothing. */
  lemma AppendEmpty(x: string)
    ensures x + "" == x && "" + x == x
  {
  }
}
