/** Searching in C strings. A string is the sequence of its characters without the terminator, and
    a pointer into it is the rest of the string from there. */
module Text {

  /** Index of the first c, or the length where there is none (strchrnul). */
  function IndexOf(s: string, c: char): (i: nat)
    ensures i <= |s|
    ensures i < |s| ==> s[i] == c
    ensures forall k | 0 <= k < i :: s[k] != c
  {
    if s == [] || s[0] == c then 0 else 1 + IndexOf(s[1..], c)
  }

  predicate Lacks(s: string, c: char) {
    forall k | 0 <= k < |s| :: s[k] != c
  }

  lemma IndexOfIs(s: string, c: char, i: nat)
    requires i <= |s| && (i < |s| ==> s[i] == c)
    requires forall k | 0 <= k < i :: s[k] != c
    ensures IndexOf(s, c) == i
  {
  }

  /** A search runs through a part that lacks the character. */
  lemma IndexOfSkips(a: string, b: string, c: char)
    requires Lacks(a, c)
    ensures IndexOf(a + b, c) == |a| + IndexOf(b, c)
  {
    IndexOfIs(a + b, c, |a| + IndexOf(b, c));
  }

  lemma LacksConcat(a: string, b: string, c: char)
    ensures Lacks(a + b, c) <==> Lacks(a, c) && Lacks(b, c)
  {
    if Lacks(a + b, c) {
      forall k | 0 <= k < |a| ensures a[k] != c {
        assert a[k] == (a + b)[k];
      }
      forall k | 0 <= k < |b| ensures b[k] != c {
        assert b[k] == (a + b)[|a| + k];
      }
    }
  }

  /** strchrnul_custom, on a pointer given as an index. */
  method StrChrNul(s: string, from: nat, c: char) returns (stop: nat)
    requires from <= |s|
    ensures stop == from + IndexOf(s[from..], c)
  {
    stop := from;
    while stop < |s| && s[stop] != c
      invariant from <= stop <= |s|
      invariant forall k | from <= k < stop :: s[k] != c
    {
      stop := stop + 1;
    }
    IndexOfIs(s[from..], c, stop - from);
  }

  /** The parts with a separator between any two of them. */
  function Join(parts: seq<string>, c: char): string {
    if parts == [] then "" else if |parts| == 1 then parts[0] else parts[0] + [c] + Join(parts[1..], c)
  }

  lemma RegroupFirst(a: string, b: string, c: string, d: string)
    ensures a + (b + (c + d)) == (a + (b + c)) + d
  {
  }

  lemma RegroupAfterComma(a: string, b: string, c: string, d: string)
    ensures a + ((b + ("," + c)) + d) == (a + b) + ("," + (c + d))
  {
  }
}
