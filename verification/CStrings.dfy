/** The parts of string.h and ctype.h that the parsers use, on strings without a terminating zero. */
module CStrings {

  /** strncmp(s + at, pat, |pat|) == 0 */
  predicate StartsAt(s: string, at: nat, pat: string) {
    at + |pat| <= |s| && s[at..at + |pat|] == pat
  }

  /** strstr(s + from, pat): the first occurrence at or after from, or -1. */
  function IndexOf(s: string, pat: string, from: nat): (i: int)
    ensures i >= 0 ==> from <= i && StartsAt(s, i, pat) && forall j: nat | from <= j < i :: !StartsAt(s, j, pat)
    ensures i < 0 ==> forall j: nat | from <= j :: !StartsAt(s, j, pat)
    decreases |s| - from
  {
    if from + |pat| > |s| then -1
    else if StartsAt(s, from, pat) then from
    else IndexOf(s, pat, from + 1)
  }

  /** Nothing found between a and b: searching from either is the same. */
  lemma {:induction false} SkipTo(s: string, pat: string, a: nat, b: nat)
    requires a <= b && forall j: nat | a <= j < b :: !StartsAt(s, j, pat)
    ensures IndexOf(s, pat, a) == IndexOf(s, pat, b)
    decreases b - a
  {
    if a < b && a + |pat| <= |s| {
      SkipTo(s, pat, a + 1, b);
    }
  }

  lemma FoundAt(s: string, pat: string, a: nat, b: nat)
    requires a <= b && StartsAt(s, b, pat) && forall j: nat | a <= j < b :: !StartsAt(s, j, pat)
    ensures IndexOf(s, pat, a) == b
  {
    SkipTo(s, pat, a, b);
  }

  predicate Contains(s: string, pat: string) {
    IndexOf(s, pat, 0) >= 0
  }

  /** isspace in the C locale */
  predicate IsSpace(c: char) {
    c == ' ' || '\t' <= c <= '\r'
  }

  /** isprint in the C locale */
  predicate IsPrint(c: char) {
    ' ' <= c <= '~'
  }

  function ToLower(c: char): char {
    if 'A' <= c <= 'Z' then c + 32 as char else c
  }

  function Lower(s: string): (r: string)
    ensures |r| == |s|
  {
    seq(|s|, i requires 0 <= i < |s| => ToLower(s[i]))
  }

  /** The classes by character code. */
  lemma CharacterClasses(c: char)
    ensures IsSpace(c) <==> c as int == 32 || 9 <= c as int <= 13
    ensures IsPrint(c) <==> 32 <= c as int <= 126
  {
  }

  /** Only the 26 capital letters change. */
  lemma LowerExactly(s: string, i: nat)
    requires i < |s|
    ensures Lower(s)[i] as int == if 65 <= s[i] as int <= 90 then s[i] as int + 32 else s[i] as int
  {
  }
}
