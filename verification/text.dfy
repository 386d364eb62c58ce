/** Character-level helpers for the keyword filter: ASCII lower-casing and
    substring search with the semantics of Python's `in` on strings. */
module Text {

  predicate IsUpper(c: char) {
    'A' <= c <= 'Z'
  }

  /** ASCII lower-casing of one character; every other character is left alone. */
  function LowerChar(c: char): char {
    if IsUpper(c) then (c as int + 32) as char else c
  }

  /** `s.lower()`, restricted to ASCII letters. */
  function Lower(s: string): (r: string)
    ensures |r| == |s|
    ensures forall i :: 0 <= i < |s| ==> r[i] == LowerChar(s[i])
  {
    if s == [] then [] else [LowerChar(s[0])] + Lower(s[1..])
  }

  /** Lower-casing twice is the same as lower-casing once. */
  lemma LowerIdempotent(s: string)
    ensures Lower(Lower(s)) == Lower(s)
  {
  }

  /** `p` occurs in `s` starting at index `i`. */
  ghost predicate OccursAt(p: string, s: string, i: int) {
    0 <= i && i + |p| <= |s| && s[i..i + |p|] == p
  }

  /** Python's `p in s` for two strings; the empty pattern occurs in every string. */
  function Contains(s: string, p: string): bool
    decreases |s|
  {
    if |p| > |s| then false
    else if s[..|p|] == p then true
    else Contains(s[1..], p)
  }

  /** `Contains` is exactly "occurs at some index". */
  lemma {:induction false} ContainsIff(s: string, p: string)
    ensures Contains(s, p) <==> exists i :: OccursAt(p, s, i)
    decreases |s|
  {
    if |p| > |s| {
    } else if s[..|p|] == p {
      assert OccursAt(p, s, 0);
    } else {
      ContainsIff(s[1..], p);
      if i :| OccursAt(p, s[1..], i) {
        assert s[1..][i..i + |p|] == s[i + 1..i + 1 + |p|];
        assert OccursAt(p, s, i + 1);
      }
      if i :| OccursAt(p, s, i) {
        assert i != 0;
        assert s[1..][i - 1..i - 1 + |p|] == s[i..i + |p|];
        assert OccursAt(p, s[1..], i - 1);
      }
    }
  }

  /** An occurrence survives lower-casing both strings, at the same index. */
  lemma LowerKeepsOccurrence(p: string, s: string, i: int)
    requires OccursAt(p, s, i)
    ensures OccursAt(Lower(p), Lower(s), i)
  {
    forall j | 0 <= j < |p|
      ensures Lower(s)[i..i + |p|][j] == Lower(p)[j]
    {
      assert s[i..i + |p|][j] == p[j];
    }
  }

  /** A pattern holding a character the string lacks occurs nowhere in it. */
  lemma AbsentCharBlocks(p: string, s: string, c: char)
    requires c in p && c !in s
    ensures forall i :: !OccursAt(p, s, i)
  {
  }
}
