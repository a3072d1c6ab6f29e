/** Character classes and cursor primitives over source text.

    The source tests single characters with regular expressions:
    `/\s/` (whitespace), `/[0-9]/`, `/[a-z]/i` and `/[a-z0-9]/i`
    (Lexer/Lexer.php:13-19). Here they are plain predicates over `char`. */
module Text {
  import opened Wrappers

  /** `\s` of PCRE: space, tab, line feed, vertical tab, form feed, carriage return. */
  predicate IsSpace(c: char) {
    c == ' ' || '\t' <= c <= '\r'
  }

  predicate IsDigit(c: char) {
    '0' <= c <= '9'
  }

  /** An ASCII letter of either case. */
  predicate IsLetter(c: char) {
    'a' <= c <= 'z' || 'A' <= c <= 'Z'
  }

  predicate IsAlnum(c: char) {
    IsLetter(c) || IsDigit(c)
  }

  /** Anything but the character that closes a comment. */
  predicate InComment(c: char) {
    c != '}'
  }

  /** The character at `i`, or None once `i` is past the end. */
  function CharAt(s: string, i: nat): (r: Option<char>)
    ensures r.Some? <==> i < |s|
    ensures i < |s| ==> r.value == s[i]
  {
    if i < |s| then Some(s[i]) else None
  }

  /** The end of the longest run of characters satisfying `p` that starts
      at `i`: every character in `[i, e)` satisfies `p`, and the character
      at `e`, if any, does not. */
  function RunEnd(s: string, i: nat, p: char -> bool): (e: nat)
    requires i <= |s|
    ensures i <= e <= |s|
    ensures forall k | i <= k < e :: p(s[k])
    ensures e < |s| ==> !p(s[e])
    decreases |s| - i
  {
    if i < |s| && p(s[i]) then RunEnd(s, i + 1, p) else i
  }

  /** A maximal run is unique: any `e` with the two defining properties is
      the one `RunEnd` finds. */
  lemma RunEndUnique(s: string, i: nat, e: nat, p: char -> bool)
    requires i <= e <= |s|
    requires forall k | i <= k < e :: p(s[k])
    requires e < |s| ==> !p(s[e])
    ensures RunEnd(s, i, p) == e
  {
  }

  /** `s` occurs in `text` at offset `i`. */
  predicate At<T(==)>(text: seq<T>, i: nat, s: seq<T>) {
    i + |s| <= |text| && text[i..i + |s|] == s
  }

  lemma AtSplit<T>(text: seq<T>, i: nat, a: seq<T>, b: seq<T>)
    requires At(text, i, a + b)
    ensures At(text, i, a) && At(text, i + |a|, b)
  {
    assert text[i..i + |a|] == (a + b)[..|a|];
    assert text[i + |a|..i + |a| + |b|] == (a + b)[|a|..];
  }

  /** `a`, one separator `c` and `b`, in that order at `i`. */
  lemma AtSeparated<T>(text: seq<T>, i: nat, a: seq<T>, c: T, b: seq<T>)
    requires At(text, i, a + [c] + b)
    ensures At(text, i, a) && i + |a| < |text| && text[i + |a|] == c
    ensures At(text, i + |a| + 1, b)
  {
    AtSplit(text, i, a + [c], b);
    AtSplit(text, i, a, [c]);
    AtIndex(text, i + |a|, [c], 0);
  }

  lemma AtIndex<T>(text: seq<T>, i: nat, s: seq<T>, j: nat)
    requires At(text, i, s) && j < |s|
    ensures text[i + j] == s[j]
  {
    assert text[i..i + |s|][j] == s[j];
  }
}
